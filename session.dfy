/** The S2S session: the connection to the indexer, the buffered writer in
    front of it, the handshake, the byte counter that triggers a flush and
    a redial, closing, and adding events to the staging buffer.

    The network is an abstract sink. Every successful dial opens a new
    connection, numbered in dial order; `streams[i]` holds the bytes that
    have reached connection i. The `bufio.Writer` is the connection it was
    made for (`writer`) and the bytes it holds back (`pending`). The
    outcome of each dial, flush and close is a parameter: `None` for
    success, `Some(message)` for the error the network reports. */
module Session {
  import opened Wire
  import opened Encoder
  import opened GoStrings
  import opened FrameFacts

  const DEFAULT_SERVER_NAME: string := "SplunkServerDefaultCert"
  const SIGNATURE: string := "--splunk-cooked-mode-v2--"
  const MALFORMED_SERVER: string := "server malformed.  Should look like server:port"
  const BAD_CERT: string := "Failed to parse root Certificate"
  const NOT_FOUND: string := "Endpoint not found"
  /** The runtime panics of the Go code: indexing an empty slice and
      calling through a nil writer or connection. */
  const OUT_OF_RANGE: string := "index out of range"
  const NIL_DEREFERENCE: string := "nil pointer dereference"

  /** Where `Add` can send an event: an alias and the index and sourcetype
      its events carry. */
  datatype EndPoint = EndPoint(alias: string, index: string, sourceType: string)

  /** How a call ends: normally, with an error value, or with a panic. */
  datatype Status = Done | Failed(msg: string) | Panicked(msg: string)

  /** The TLS server name used when none is configured. */
  function ServerNameOr(name: string): (r: string)
    ensures r != ""
    ensures name == "" ==> r == DEFAULT_SERVER_NAME
    ensures name != "" ==> r == name
  {
    if name == "" then DEFAULT_SERVER_NAME else name
  }

  function Zeros(n: nat): (z: seq<Byte>)
    ensures |z| == n && forall i | 0 <= i < n :: z[i] == 0
  {
    seq(n, _ => 0)
  }

  /** Go's `copy` of `b` into a zeroed array of `n` bytes: the first `n`
      bytes of `b`, then zeros. */
  function Padded(b: seq<Byte>, n: nat): (r: seq<Byte>)
    ensures |r| == n
  {
    if |b| >= n then b[..n] else b + Zeros(n - |b|)
  }

  /** The handshake: the protocol marker in 128 bytes, the host in 256 and
      the management port in 16. */
  function Signature(host: string, port: string): (sig: seq<Byte>)
    ensures |sig| == 400
  {
    Padded(Octets(SIGNATURE), 128) + Padded(Octets(host), 256) + Padded(Octets(port), 16)
  }

  /** The receiver's reading of a fixed-size field: the bytes before the
      first NUL. */
  function Unpad(b: seq<Byte>): (r: seq<Byte>)
    ensures |r| <= |b|
  {
    if b == [] || b[0] == 0 then [] else [b[0]] + Unpad(b[1..])
  }

  predicate NoNul(s: string)
  {
    forall i | 0 <= i < |s| :: s[i] != 0 as char
  }

  function Min(a: nat, b: nat): nat
  {
    if a < b then a else b
  }

  lemma {:induction false} UnpadNoZeros(b: seq<Byte>, k: nat)
    requires forall i | 0 <= i < |b| :: b[i] != 0
    ensures Unpad(b + Zeros(k)) == b
  {
    if b != [] {
      assert (b + Zeros(k))[1..] == b[1..] + Zeros(k);
      UnpadNoZeros(b[1..], k);
    }
  }

  /** A field reads back as the string that was copied into it, cut to the
      field's size. */
  lemma UnpadPadded(s: string, n: nat)
    requires IsByteString(s) && NoNul(s)
    ensures Chars(Unpad(Padded(Octets(s), n))) == s[..Min(|s|, n)]
  {
    var m := Min(|s|, n);
    var b := Octets(s[..m]);
    assert Padded(Octets(s), n) == b + Zeros(n - m);
    forall i | 0 <= i < |b| ensures b[i] != 0 {
      assert s[i] as int < 256 && s[i] != 0 as char;
    }
    UnpadNoZeros(b, n - m);
    CharsOfOctets(s[..m]);
  }

  /** The receiver recovers the marker, the host and the port from the
      handshake, each cut to its field. */
  lemma ReadSignature(host: string, port: string)
    requires IsByteString(host) && NoNul(host) && IsByteString(port) && NoNul(port)
    ensures var sig := Signature(host, port);
      && Chars(Unpad(sig[..128])) == SIGNATURE
      && Chars(Unpad(sig[128..384])) == host[..Min(|host|, 256)]
      && Chars(Unpad(sig[384..])) == port[..Min(|port|, 16)]
  {
    SignatureFields(host, port);
    ReadMarker();
    UnpadPadded(host, 256);
    UnpadPadded(port, 16);
  }

  lemma SignatureFields(host: string, port: string)
    ensures var sig := Signature(host, port);
      && sig[..128] == Padded(Octets(SIGNATURE), 128)
      && sig[128..384] == Padded(Octets(host), 256)
      && sig[384..] == Padded(Octets(port), 16)
  {
  }

  lemma ReadMarker()
    ensures Chars(Unpad(Padded(Octets(SIGNATURE), 128))) == SIGNATURE
  {
    assert IsByteString(SIGNATURE) && NoNul(SIGNATURE) && |SIGNATURE| == 25;
    UnpadPadded(SIGNATURE, 128);
    assert SIGNATURE[..25] == SIGNATURE;
  }

  /** `copy(field[:], s)` into a zeroed array of `n` bytes. */
  method CopyPadded(s: string, n: nat) returns (field: seq<Byte>)
    ensures field == Padded(Octets(s), n)
  {
    var a := new Byte[n](_ => 0);
    var m := Min(|s|, n);
    for i := 0 to m
      invariant forall j | 0 <= j < i :: a[j] == (s[j] as int) % 256
      invariant forall j | i <= j < n :: a[j] == 0
    {
      a[i] := (s[i] as int) % 256;
    }
    field := a[..];
    if |s| >= n {
      assert field == Octets(s)[..n];
    } else {
      assert field == Octets(s) + Zeros(n - |s|);
    }
  }

  /** The three arrays of `splunkSignature`, filled and written out in
      order. */
  method BuildSignature(host: string, port: string) returns (sig: seq<Byte>)
    ensures sig == Signature(host, port)
  {
    var marker := CopyPadded(SIGNATURE, 128);
    var name := CopyPadded(host, 256);
    var mgmt := CopyPadded(port, 16);
    sig := marker + name + mgmt;
  }

  /** A server written `host:port` with no other colon splits into its
      host and its port; any other form is malformed. */
  lemma ServerParts(server: string)
    ensures |Split(server, ':')| == 2 <==> Count(server, ':') == 1
    ensures Count(server, ':') == 1 ==> server == Split(server, ':')[0] + ":" + Split(server, ':')[1]
  {
    SplitCount(server, ':');
    if |Split(server, ':')| == 2 {
      TwoPieces(server, ':');
    }
  }

  /** The host and the port of a server written `host:port`. */
  function ServerAddress(server: string): (r: Option<(string, string)>)
    ensures r.Some? <==> Count(server, ':') == 1
    ensures r.Some? ==> server == r.value.0 + ":" + r.value.1 && ':' !in r.value.0 && ':' !in r.value.1
  {
    ServerParts(server);
    SplitPiecesFree(server, ':');
    var parts := Split(server, ':');
    if |parts| == 2 then Some((parts[0], parts[1])) else None
  }

  /** Every host and port without a colon is read back from `host:port`. */
  lemma HostPort(host: string, port: string)
    requires ':' !in host && ':' !in port
    ensures ServerAddress(host + ":" + port) == Some((host, port))
  {
    SplitAround(host, ':', port);
  }

  /** The first endpoint with the alias, if any. */
  function FirstMatch(eps: seq<EndPoint>, alias: string): (r: Option<nat>)
    ensures r.Some? ==> r.value < |eps| && eps[r.value].alias == alias
    ensures r.Some? ==> forall j | 0 <= j < r.value :: eps[j].alias != alias
    ensures r.None? ==> forall j | 0 <= j < |eps| :: eps[j].alias != alias
  {
    if eps == [] then None
    else if eps[0].alias == alias then Some(0)
    else
      match FirstMatch(eps[1..], alias)
      case None => None
      case Some(i) => Some(i + 1)
  }

  /** The search loop of `Add`: the position of the first endpoint with the
      alias, or the "Endpoint not found" panic when a non-empty list has
      none. An empty list leaves the loop at position 0. */
  method FindEndpoint(eps: seq<EndPoint>, alias: string) returns (position: nat, notFound: bool)
    ensures notFound <==> eps != [] && FirstMatch(eps, alias).None?
    ensures FirstMatch(eps, alias).Some? ==> position == FirstMatch(eps, alias).value
    ensures eps == [] ==> position == 0
  {
    position, notFound := 0, false;
    var i := 0;
    while i < |eps|
      invariant 0 <= i <= |eps|
      invariant |eps| > 0 ==> i < |eps|
      invariant forall j | 0 <= j < i :: eps[j].alias != alias
    {
      if eps[i].alias == alias {
        position := i;
        return;
      }
      if i == |eps| - 1 {
        notFound := true;
        return;
      }
      i := i + 1;
    }
  }

  /** The event `Add` encodes: the rendered event as `_raw`, and the
      endpoint's index and sourcetype. */
  function EventData(raw: string, ep: EndPoint): (line: map<string, string>)
    ensures line.Keys == {RAW_KEY, INDEX_KEY, SOURCETYPE_KEY}
  {
    map[RAW_KEY := raw, INDEX_KEY := ep.index, SOURCETYPE_KEY := ep.sourceType]
  }

  /** `raw, _ := InterfaceToString(event)`: the error is dropped, leaving
      the empty string. */
  function Rendered(event: Value, sprint: Value -> string, marshal: Value -> Option<string>): (raw: string)
    ensures event.Text? ==> raw == event.s
  {
    match InterfaceToString(event, sprint, marshal)
    case Ok(s) => s
    case Err(_) => ""
  }

  /** One iteration order of the three keys of an event. */
  const ADD_ORDER: seq<string> := [INDEX_KEY, SOURCETYPE_KEY, RAW_KEY]

  /** Whatever order the event's keys are visited in, its frame carries
      the index and the prefixed sourcetype as field pairs, so its
      mapCount is 4. */
  lemma AddPairs(raw: string, ep: EndPoint, order: seq<string>)
    requires IsOrdering(order, EventData(raw, ep).Keys)
    ensures multiset(MetaPairs(EventData(raw, ep), order))
         == multiset{Pair(META_INDEX, ep.index), Pair(META_SOURCETYPE, SOURCETYPE_PREFIX + ep.sourceType)}
    ensures |MetaPairs(EventData(raw, ep), order)| + 2 == 4
  {
    var line := EventData(raw, ep);
    AddOrderIsOrdering(raw, ep);
    FrameOrderIndependent(line, order, ADD_ORDER);
    AddOrderPairs(raw, ep);
  }

  lemma AddOrderIsOrdering(raw: string, ep: EndPoint)
    ensures IsOrdering(ADD_ORDER, EventData(raw, ep).Keys)
  {
  }

  lemma AddOrderPairs(raw: string, ep: EndPoint)
    ensures MetaPairs(EventData(raw, ep), ADD_ORDER)
         == [Pair(META_INDEX, ep.index), Pair(META_SOURCETYPE, SOURCETYPE_PREFIX + ep.sourceType)]
  {
    var line := EventData(raw, ep);
    assert ADD_ORDER[..2] == [INDEX_KEY, SOURCETYPE_KEY];
    assert ADD_ORDER[..2][..1] == [INDEX_KEY];
    assert [INDEX_KEY][..0] == [];
    assert MetaPairs(line, [INDEX_KEY]) == [Pair(META_INDEX, ep.index)];
  }

  /** An S2S session. */
  class S2S {
    const server: string
    const tls: bool
    const cert: string
    var serverName: string
    const insecureSkipVerify: bool
    const bufferBytes: int
    const endPoints: seq<EndPoint>
    /** Whether x509 finds a certificate in a PEM text. */
    const certParses: string -> bool

    /** The open connection, by number; `None` once a dial has failed. */
    var conn: Option<nat>
    /** The connection the buffered writer writes to; `None` before the
        first successful dial. */
    var writer: Option<nat>
    /** Bytes the writer holds back until its next flush. */
    var pending: seq<Byte>
    /** The bytes each connection has received. */
    var streams: seq<seq<Byte>>
    /** Everything ever written to the writer of each connection. */
    ghost var log: seq<seq<Byte>>
    /** Bytes copied since the last flush. */
    var sent: int
    var closed: bool
    var initialized: bool
    var lastSend: int

    /** Each connection has received a prefix of what was written for it;
        for the current writer, exactly what was written less what it still
        holds back. */
    ghost predicate Valid()
      reads this
    {
      && |log| == |streams|
      && (conn.Some? ==> conn.value < |streams|)
      && (writer.Some? ==> writer.value < |streams| && streams[writer.value] + pending == log[writer.value])
      && (writer.None? ==> pending == [])
      && (forall i | 0 <= i < |streams| :: streams[i] <= log[i])
    }

    /** `new(S2S)` with the configuration filled in, before any dial. */
    constructor (server: string, bufferBytes: int, endPoints: seq<EndPoint>, tls: bool, cert: string,
                 serverName: string, insecureSkipVerify: bool, certParses: string -> bool)
      ensures Valid()
      ensures this.server == server && this.bufferBytes == bufferBytes && this.endPoints == endPoints
      ensures this.tls == tls && this.cert == cert && this.insecureSkipVerify == insecureSkipVerify
      ensures this.certParses == certParses
      ensures this.serverName == ServerNameOr(serverName)
      ensures conn.None? && writer.None? && pending == [] && streams == []
      ensures sent == 0 && !closed && !initialized
    {
      this.server := server;
      this.endPoints := endPoints;
      this.bufferBytes := bufferBytes;
      this.tls := tls;
      this.cert := cert;
      this.serverName := ServerNameOr(serverName);
      this.insecureSkipVerify := insecureSkipVerify;
      this.certParses := certParses;
      conn, writer, pending, streams, log := None, None, [], [], [];
      sent, closed, initialized, lastSend := 0, false, false, 0;
    }

    /** TLS is on with a certificate x509 cannot parse. */
    predicate CertRejected()
    {
      tls && |cert| > 0 && !certParses(cert)
    }

    /** `connect`: the certificate is checked before anything is dialled;
        a failed dial leaves no connection. */
    method Dial(dialErr: Option<string>) returns (err: Option<string>)
      requires Valid()
      modifies this`conn, this`streams, this`log
      ensures Valid()
      ensures CertRejected() ==> err == Some(BAD_CERT) && conn == old(conn) && streams == old(streams)
      ensures !CertRejected() && dialErr.None? ==>
        err.None? && conn == Some(|old(streams)|) && streams == old(streams) + [[]] && log == old(log) + [[]]
      ensures !CertRejected() && dialErr.Some? ==> err == dialErr && conn.None? && streams == old(streams)
    {
      if tls {
        if |cert| > 0 && !certParses(cert) {
          return Some(BAD_CERT);
        }
      }
      if dialErr.Some? {
        conn := None;
        return dialErr;
      }
      conn := Some(|streams|);
      streams := streams + [[]];
      log := log + [[]];
      err := None;
    }

    /** `newBuf`: on a successful dial a new writer for the new connection
        replaces the old one, and whatever the old one held back is lost. */
    method NewBuf(dialErr: Option<string>) returns (err: Option<string>)
      requires Valid()
      modifies this`conn, this`streams, this`log, this`writer, this`pending
      ensures Valid()
      ensures err.None? <==> !CertRejected() && dialErr.None?
      ensures err.None? ==>
        conn == writer == Some(|old(streams)|) && streams == old(streams) + [[]] && pending == []
      ensures err.Some? ==> writer == old(writer) && pending == old(pending) && streams == old(streams)
      ensures err.Some? ==> if CertRejected() then err == Some(BAD_CERT) && conn == old(conn) else err == dialErr && conn.None?
    {
      err := Dial(dialErr);
      if err.Some? {
        return;
      }
      writer := conn;
      pending := [];
    }

    /** Hands bytes to the writer. */
    method WriteOut(b: seq<Byte>)
      requires Valid() && writer.Some?
      modifies this`pending, this`log
      ensures Valid()
      ensures pending == old(pending) + b
      ensures log == old(log)[writer.value := old(log)[writer.value] + b]
    {
      var w := writer.value;
      log := log[w := log[w] + b];
      pending := pending + b;
    }

    /** `sendSig`: a server of the form `host:port` has its handshake
        written to the writer; anything else is an error and writes
        nothing. */
    method SendSig() returns (status: Status)
      requires Valid()
      modifies this`pending, this`log
      ensures Valid()
      ensures Count(server, ':') != 1 ==> status == Failed(MALFORMED_SERVER) && pending == old(pending)
      ensures Count(server, ':') == 1 && writer.None? ==> status == Panicked(NIL_DEREFERENCE)
      ensures Count(server, ':') == 1 && writer.Some? ==>
        status == Done && pending == old(pending) + Signature(ServerAddress(server).value.0, ServerAddress(server).value.1)
    {
      var serverParts := Split(server, ':');
      ServerParts(server);
      if |serverParts| != 2 {
        return Failed(MALFORMED_SERVER);
      }
      var sig := BuildSignature(serverParts[0], serverParts[1]);
      if writer.None? {
        return Panicked(NIL_DEREFERENCE);
      }
      WriteOut(sig);
      status := Done;
    }

    /** `Connect`: defaults the server name, dials, sends the handshake and
        marks the session initialized, printing rather than returning the
        errors of the first two steps. */
    method Connect(dialErr: Option<string>) returns (status: Status)
      requires Valid()
      modifies this`serverName, this`conn, this`streams, this`log, this`writer, this`pending, this`initialized
      ensures Valid()
      ensures serverName == ServerNameOr(old(serverName))
      ensures status == Done || status == Panicked(NIL_DEREFERENCE)
      ensures status == Done ==> initialized
      ensures status != Done ==> initialized == old(initialized)
      ensures status == Done <==> Count(server, ':') != 1 || writer.Some?
      ensures !CertRejected() && dialErr.None? ==>
        && status == Done && streams == old(streams) + [[]]
        && writer == Some(|old(streams)|) && conn == writer
        && pending == if Count(server, ':') == 1 then Signature(ServerAddress(server).value.0, ServerAddress(server).value.1) else []
      ensures CertRejected() || dialErr.Some? ==>
        && streams == old(streams) && writer == old(writer)
        && (if CertRejected() then conn == old(conn) else conn.None?)
        && (Count(server, ':') != 1 ==> pending == old(pending))
        && (Count(server, ':') == 1 && writer.Some? ==>
              pending == old(pending) + Signature(ServerAddress(server).value.0, ServerAddress(server).value.1))
    {
      if serverName == "" {
        serverName := DEFAULT_SERVER_NAME;
      }
      var err := NewBuf(dialErr);
      status := SendSig();
      if status.Panicked? {
        return;
      }
      initialized := true;
      status := Done;
    }

    /** `Flush` of the writer: what it holds back reaches its connection. */
    method Flush(flushErr: Option<string>) returns (err: Option<string>)
      requires Valid() && writer.Some?
      modifies this`pending, this`streams
      ensures Valid()
      ensures err == flushErr
      ensures err.None? ==> pending == [] && streams == old(streams)[writer.value := old(streams)[writer.value] + old(pending)]
      ensures err.Some? ==> pending == old(pending) && streams == old(streams)
    {
      if flushErr.Some? {
        return flushErr;
      }
      var w := writer.value;
      streams := streams[w := streams[w] + pending];
      pending := [];
      err := None;
    }

    /** `Copy`: moves everything in `r` to the writer and counts it. Once
        more than `bufferBytes` have been counted, the writer is flushed, a
        new connection and writer replace the old ones without a new
        handshake, and the count starts again. */
    method Copy(r: Buffer, flushErr: Option<string>, dialErr: Option<string>) returns (n: int, status: Status)
      requires Valid()
      modifies this`pending, this`streams, this`log, this`conn, this`writer, this`sent, r
      ensures Valid()
      ensures old(writer).None? ==>
        && n == 0 && r.data == old(r.data) && sent == old(sent)
        && writer == old(writer) && pending == old(pending) && streams == old(streams) && conn == old(conn)
      ensures old(writer).None? ==>
        if old(r.data) == [] && old(sent) <= bufferBytes then status == Done else status == Panicked(NIL_DEREFERENCE)
      ensures old(writer).Some? ==> r.data == []
      ensures old(writer).Some? && old(sent) + |old(r.data)| <= bufferBytes ==>
        && n == |old(r.data)| && status == Done && sent == old(sent) + n
        && pending == old(pending) + old(r.data) && streams == old(streams) && writer == old(writer) && conn == old(conn)
      ensures old(writer).Some? && old(sent) + |old(r.data)| > bufferBytes && flushErr.Some? ==>
        && n == 0 && status == Failed(flushErr.value) && sent == old(sent) + |old(r.data)|
        && pending == old(pending) + old(r.data) && streams == old(streams) && writer == old(writer) && conn == old(conn)
      ensures old(writer).Some? && old(sent) + |old(r.data)| > bufferBytes && flushErr.None? ==>
        && n == |old(r.data)| && status == Done && sent == 0 && pending == []
        && |old(streams)| <= |streams|
        && streams[..|old(streams)|]
           == old(streams)[old(writer).value := old(streams)[old(writer).value] + old(pending) + old(r.data)]
        && (!CertRejected() && dialErr.None? ==>
              |streams| == |old(streams)| + 1 && streams[|old(streams)|] == []
              && writer == Some(|old(streams)|) && conn == writer)
        && (CertRejected() ==> |streams| == |old(streams)| && writer == old(writer) && conn == old(conn))
        && (!CertRejected() && dialErr.Some? ==> |streams| == |old(streams)| && writer == old(writer) && conn.None?)
    {
      if writer.None? {
        // An empty source is never written to the writer, so only the
        // flush goes through the nil writer.
        if r.data != [] || sent > bufferBytes {
          return 0, Panicked(NIL_DEREFERENCE);
        }
        return 0, Done;
      }
      var data := r.Drain();
      ghost var before := pending;
      WriteOut(data);
      sent := sent + |data|;
      if sent > bufferBytes {
        AppendAssoc(old(streams)[writer.value], before, data);
        var err := Rotate(flushErr, dialErr);
        if err.Some? {
          return 0, Failed(err.value);
        }
        sent := 0;
      }
      return |data|, Done;
    }

    /** The threshold step of `Copy`: flush the writer, then a new
        connection and writer without a handshake. A failed flush stops
        before the dial; the dial's own error is ignored. */
    method Rotate(flushErr: Option<string>, dialErr: Option<string>) returns (err: Option<string>)
      requires Valid() && writer.Some?
      modifies this`pending, this`streams, this`log, this`conn, this`writer
      ensures Valid()
      ensures err == flushErr
      ensures err.Some? ==> pending == old(pending) && streams == old(streams) && writer == old(writer) && conn == old(conn)
      ensures err.None? ==>
        && pending == [] && |old(streams)| <= |streams|
        && streams[..|old(streams)|] == old(streams)[old(writer).value := old(streams)[old(writer).value] + old(pending)]
        && (!CertRejected() && dialErr.None? ==>
              |streams| == |old(streams)| + 1 && streams[|old(streams)|] == []
              && writer == Some(|old(streams)|) && conn == writer)
        && (CertRejected() ==> |streams| == |old(streams)| && writer == old(writer) && conn == old(conn))
        && (!CertRejected() && dialErr.Some? ==> |streams| == |old(streams)| && writer == old(writer) && conn.None?)
    {
      err := Flush(flushErr);
      if err.Some? {
        return;
      }
      ghost var flushed := streams;
      var _ := NewBuf(dialErr);
      assert streams[..|flushed|] == flushed;
    }

    /** `Send`: records the time and copies the staging buffer out, which
        leaves it empty. */
    method Send(buf: Buffer, now: int, flushErr: Option<string>, dialErr: Option<string>) returns (n: int, status: Status)
      requires Valid()
      modifies this`pending, this`streams, this`log, this`conn, this`writer, this`sent, this`lastSend, buf
      ensures Valid()
      ensures lastSend == now
      ensures old(writer).None? ==>
        && n == 0 && buf.data == old(buf.data) && sent == old(sent)
        && writer == old(writer) && pending == old(pending) && streams == old(streams) && conn == old(conn)
      ensures old(writer).None? ==>
        if old(buf.data) == [] && old(sent) <= bufferBytes then status == Done else status == Panicked(NIL_DEREFERENCE)
      ensures old(writer).Some? ==> buf.data == []
      ensures old(writer).Some? && old(sent) + |old(buf.data)| <= bufferBytes ==>
        && n == |old(buf.data)| && status == Done && sent == old(sent) + n
        && pending == old(pending) + old(buf.data) && streams == old(streams) && writer == old(writer) && conn == old(conn)
      ensures old(writer).Some? && old(sent) + |old(buf.data)| > bufferBytes && flushErr.Some? ==>
        && n == 0 && status == Failed(flushErr.value) && sent == old(sent) + |old(buf.data)|
        && pending == old(pending) + old(buf.data) && streams == old(streams) && writer == old(writer) && conn == old(conn)
      ensures old(writer).Some? && old(sent) + |old(buf.data)| > bufferBytes && flushErr.None? ==>
        && n == |old(buf.data)| && status == Done && sent == 0 && pending == []
        && |old(streams)| <= |streams|
        && streams[..|old(streams)|]
           == old(streams)[old(writer).value := old(streams)[old(writer).value] + old(pending) + old(buf.data)]
        && (!CertRejected() && dialErr.None? ==>
              |streams| == |old(streams)| + 1 && streams[|old(streams)|] == []
              && writer == Some(|old(streams)|) && conn == writer)
        && (CertRejected() ==> |streams| == |old(streams)| && writer == old(writer) && conn == old(conn))
        && (!CertRejected() && dialErr.Some? ==> |streams| == |old(streams)| && writer == old(writer) && conn.None?)
    {
      lastSend := now;
      n, status := Copy(buf, flushErr, dialErr);
    }

    /** `Close`: the first successful call flushes and closes the
        connection; once closed, later calls do nothing. A failing flush or
        close leaves the session open and returns the error. */
    method Close(flushErr: Option<string>, closeErr: Option<string>) returns (status: Status)
      requires Valid()
      modifies this`pending, this`streams, this`closed
      ensures Valid()
      ensures old(closed) ==> status == Done && closed && pending == old(pending) && streams == old(streams)
      ensures !old(closed) && writer.None? ==> status == Panicked(NIL_DEREFERENCE) && !closed
      ensures !old(closed) && writer.Some? && flushErr.Some? ==>
        status == Failed(flushErr.value) && !closed && pending == old(pending) && streams == old(streams)
      ensures !old(closed) && writer.Some? && flushErr.None? ==>
        && pending == [] && streams == old(streams)[writer.value := old(streams)[writer.value] + old(pending)]
        && (conn.None? ==> status == Panicked(NIL_DEREFERENCE) && !closed)
        && (conn.Some? && closeErr.Some? ==> status == Failed(closeErr.value) && !closed)
        && (conn.Some? && closeErr.None? ==> status == Done && closed)
    {
      if !closed {
        if writer.None? {
          return Panicked(NIL_DEREFERENCE);
        }
        var err := Flush(flushErr);
        if err.Some? {
          return Failed(err.value);
        }
        if conn.None? {
          return Panicked(NIL_DEREFERENCE);
        }
        if closeErr.Some? {
          return Failed(closeErr.value);
        }
        closed := true;
      }
      status := Done;
    }

    /** The steps of `NewS2STls` once the fields are set: dial, write the
        handshake, mark the session initialized. Any error stops it. */
    method Start(dialErr: Option<string>) returns (status: Status)
      requires Valid() && writer.None? && streams == [] && !initialized
      modifies this`conn, this`streams, this`log, this`writer, this`pending, this`initialized
      ensures Valid()
      ensures status.Done? <==> !CertRejected() && dialErr.None? && Count(server, ':') == 1
      ensures CertRejected() ==> status == Failed(BAD_CERT)
      ensures !CertRejected() && dialErr.Some? ==> status == Failed(dialErr.value)
      ensures !CertRejected() && dialErr.None? && Count(server, ':') != 1 ==> status == Failed(MALFORMED_SERVER)
      ensures status.Done? ==>
        && initialized && streams == [[]] && writer == Some(0)
        && pending == Signature(ServerAddress(server).value.0, ServerAddress(server).value.1)
    {
      var err := NewBuf(dialErr);
      if err.Some? {
        return Failed(err.value);
      }
      status := SendSig();
      if status != Done {
        return;
      }
      initialized := true;
    }

    /** `Add`: renders the event, finds the first endpoint with the alias
        and appends one frame for the event to the staging buffer. An alias
        no endpoint has is a panic. */
    method Add(event: Value, endpoint: string, order: seq<string>, buf: Buffer,
               sprint: Value -> string, marshal: Value -> Option<string>) returns (status: Status)
      requires IsOrdering(order, {RAW_KEY, INDEX_KEY, SOURCETYPE_KEY})
      modifies buf
      ensures FirstMatch(endPoints, endpoint).None? ==>
        && status == Panicked(if endPoints == [] then OUT_OF_RANGE else NOT_FOUND)
        && buf.data == old(buf.data)
      ensures FirstMatch(endPoints, endpoint).Some? ==>
        && status == Done
        && buf.data == old(buf.data)
           + Frame(EventData(Rendered(event, sprint, marshal), endPoints[FirstMatch(endPoints, endpoint).value]), order)
    {
      var raw := Rendered(event, sprint, marshal);
      var position, notFound := FindEndpoint(endPoints, endpoint);
      if notFound {
        return Panicked(NOT_FOUND);
      }
      if position >= |endPoints| {
        return Panicked(OUT_OF_RANGE);
      }
      var eventData := EventData(raw, endPoints[position]);
      var _ := EncodeEvent(eventData, order, buf);
      status := Done;
    }
  }

  /** `NewS2STls`: a session is returned only once it is connected and its
      handshake is waiting in the writer. */
  method NewS2STls(server: string, bufferBytes: int, endPoints: seq<EndPoint>, tls: bool, cert: string,
                   serverName: string, insecureSkipVerify: bool, certParses: string -> bool,
                   dialErr: Option<string>) returns (st: S2S?, status: Status)
    ensures status.Done? <==> st != null
    ensures status.Done? <==> !(tls && |cert| > 0 && !certParses(cert)) && dialErr.None? && Count(server, ':') == 1
    ensures tls && |cert| > 0 && !certParses(cert) ==> status == Failed(BAD_CERT)
    ensures !(tls && |cert| > 0 && !certParses(cert)) && dialErr.Some? ==> status == Failed(dialErr.value)
    ensures !(tls && |cert| > 0 && !certParses(cert)) && dialErr.None? && Count(server, ':') != 1 ==> status == Failed(MALFORMED_SERVER)
    ensures st != null ==>
      && fresh(st) && st.Valid() && st.initialized && !st.closed && st.sent == 0
      && st.server == server && st.bufferBytes == bufferBytes && st.endPoints == endPoints
      && st.serverName == ServerNameOr(serverName)
      && st.streams == [[]] && st.writer == Some(0)
      && st.tls == tls && st.cert == cert && st.insecureSkipVerify == insecureSkipVerify
      && st.pending == Signature(ServerAddress(server).value.0, ServerAddress(server).value.1)
  {
    var s := new S2S(server, bufferBytes, endPoints, tls, cert, serverName, insecureSkipVerify, certParses);
    status := s.Start(dialErr);
    st := if status.Done? then s else null;
  }

  /** `NewS2S`: a plain TCP session with the default server name. */
  method NewS2S(server: string, bufferBytes: int, endPoints: seq<EndPoint>, dialErr: Option<string>)
    returns (st: S2S?, status: Status)
    ensures status.Done? <==> st != null
    ensures status.Done? <==> dialErr.None? && Count(server, ':') == 1
    ensures dialErr.Some? ==> status == Failed(dialErr.value)
    ensures dialErr.None? && Count(server, ':') != 1 ==> status == Failed(MALFORMED_SERVER)
    ensures st != null ==>
      && fresh(st) && st.Valid() && st.initialized && !st.closed && st.sent == 0
      && st.server == server && st.bufferBytes == bufferBytes && st.endPoints == endPoints
      && st.serverName == DEFAULT_SERVER_NAME
      && st.streams == [[]] && st.writer == Some(0)
      && !st.tls && st.cert == "" && !st.insecureSkipVerify
      && st.pending == Signature(ServerAddress(server).value.0, ServerAddress(server).value.1)
  {
    st, status := NewS2STls(server, bufferBytes, endPoints, false, "", "", false, _ => false, dialErr);
  }
}
