/** The HTTP side of the driver: the GET requests it writes to port 80, the
    bounded chunked receive loop that reads the reply into the XML buffer, the
    redirect check of a configuration request, and the query strings of the
    configuration pages (output rate, gauge biases, calibration index). */
module Http {
  import opened Wrappers
  import opened Transport
  import opened Text
  import opened Rdt

  /** Every recv of the loop asks for this many bytes. */
  const CHUNK_SIZE: nat := 4
  /** The loop stops once the write position reaches this. */
  const MAX_RECV_SIZE: nat := 65536
  /** The receive buffer: room for a last chunk written at MAX_RECV_SIZE - 1. */
  const XML_BUFFER_SIZE: nat := MAX_RECV_SIZE + CHUNK_SIZE
  /** What the sensor's web server answers to an accepted setting. */
  const REDIRECT_REPLY: string := "HTTP/1.0 302 Found"
  /** The calibration index that means "the one currently selected" (ati::current_calibration). */
  const CURRENT_CALIBRATION: int := -1
  /** The highest RDT output rate the sensor accepts, in Hz. */
  const MAX_RDT_RATE: nat := 7000
  /** Gauges are numbered 0..GAUGE_COUNT-1. */
  const GAUGE_COUNT: nat := 6

  // ---------------------------------------------------------------- requests

  /** "GET <path> <version>\r\nHost: <host>\r\n\r\n". */
  function HttpGet(path: string, version: string, host: string): (r: string)
    ensures |r| == 17 + |path| + |version| + |host|
  {
    "GET " + path + " " + version + "\r\nHost: " + host + "\r\n\r\n"
  }

  /** The request line comes first: the method, the path, a space and the version; the
      request ends with the blank line that closes the headers. */
  lemma HttpGetLayout(path: string, version: string, host: string)
    ensures var r := HttpGet(path, version, host);
      && r[..4] == "GET " && r[4..4 + |path|] == path && r[4 + |path|] == ' '
      && r[5 + |path|..5 + |path| + |version|] == version
      && r[|r| - 4..] == "\r\n\r\n"
  {
  }

  /** The request line and Host header determine the path: two distinct paths
      (same version and host) never give the same request. */
  lemma HttpGetInjective(p1: string, p2: string, version: string, host: string)
    requires HttpGet(p1, version, host) == HttpGet(p2, version, host)
    ensures p1 == p2
  {
    HttpGetLayout(p1, version, host);
    HttpGetLayout(p2, version, host);
  }

  // ---------------------------------------------------------------- the receive loop

  /** What the receive loop of sendTCPrequest and getCalibrationData does from write
      position pos: the endpoint after it, the text it wrote (from pos on, chunk after
      chunk) and the final position. Each turn receives at most CHUNK_SIZE bytes at
      pos and adds the count to pos, even when it is 0 or negative; a count <= 0 ends
      the loop, and so does reaching MAX_RECV_SIZE. */
  function Drain(e: Endpoint<char>, pos: int): (r: (Endpoint<char>, string, int))
    requires 0 <= pos
    ensures pos >= MAX_RECV_SIZE ==> r == (e, [], pos)
    ensures pos < MAX_RECV_SIZE ==> pos + |r.1| < XML_BUFFER_SIZE && r.0.recvCalls > e.recvCalls
    ensures r.2 == pos + |r.1| || (r.2 == pos + |r.1| - 1 && pos < MAX_RECV_SIZE)
    ensures r.0.sent == e.sent && r.0.sendReplies == e.sendReplies && r.0.open == e.open
    decreases MAX_RECV_SIZE - pos
  {
    if pos >= MAX_RECV_SIZE then (e, [], pos)
    else
      var (n, got) := RecvResult(e, CHUNK_SIZE);
      var e1 := AfterRecv(e);
      if n <= 0 then (e1, got, pos + n)
      else
        var d := Drain(e1, pos + n);
        (d.0, got + d.1, d.2)
  }

  /** One turn of the loop, unfolded: the receive at pos, then the rest of the loop
      from the position it leads to, unless its count was <= 0. */
  lemma DrainTurn(e: Endpoint<char>, pos: int)
    requires 0 <= pos < MAX_RECV_SIZE
    ensures RecvResult(e, CHUNK_SIZE).0 <= 0 ==>
      Drain(e, pos) == (AfterRecv(e), RecvResult(e, CHUNK_SIZE).1, pos + RecvResult(e, CHUNK_SIZE).0)
    ensures RecvResult(e, CHUNK_SIZE).0 > 0 ==>
      var d := Drain(AfterRecv(e), pos + RecvResult(e, CHUNK_SIZE).0);
      Drain(e, pos) == (d.0, RecvResult(e, CHUNK_SIZE).1 + d.1, d.2)
  {
  }

  /** The loop's progress from position 0: after the text so far, the loop from pos
      on finishes what the whole loop does. */
  ghost predicate Resumes(h0: Endpoint<char>, e: Endpoint<char>, pos: int, text: string)
    requires 0 <= pos
  {
    var d := Drain(e, pos);
    Drain(h0, 0) == (d.0, text + d.1, d.2)
  }

  /** One turn of the loop keeps it resuming, or ends it with the whole loop's result. */
  lemma DrainAdvance(h0: Endpoint<char>, e: Endpoint<char>, pos: int, text: string)
    requires 0 <= pos < MAX_RECV_SIZE && Resumes(h0, e, pos, text)
    ensures var r := RecvResult(e, CHUNK_SIZE);
      && (r.0 <= 0 ==> Drain(h0, 0) == (AfterRecv(e), text + r.1, pos + r.0))
      && (r.0 > 0 ==> Resumes(h0, AfterRecv(e), pos + r.0, text + r.1))
  {
    var r := RecvResult(e, CHUNK_SIZE);
    DrainTurn(e, pos);
    if r.0 > 0 {
      var d := Drain(AfterRecv(e), pos + r.0);
      Assoc(text, r.1, d.1);
    }
  }

  /** The text of a reply delivered in pieces. */
  function Flatten(cs: seq<string>): (r: string)
    ensures cs == [] ==> r == []
    ensures cs != [] ==> r == cs[0] + Flatten(cs[1..])
  {
    if cs == [] then [] else cs[0] + Flatten(cs[1..])
  }

  /** Every piece is one that a single recv of CHUNK_SIZE bytes takes whole. */
  predicate Chunked(cs: seq<string>) {
    forall i | 0 <= i < |cs| :: 0 < |cs[i]| <= CHUNK_SIZE
  }

  /** The recv deliveries of the pieces, in order. */
  function Deliveries(cs: seq<string>): (rs: seq<Reception<char>>)
    ensures |rs| == |cs|
    ensures forall i | 0 <= i < |cs| :: rs[i] == Received(cs[i])
  {
    if cs == [] then [] else [Received(cs[0])] + Deliveries(cs[1..])
  }

  /** rs delivers the pieces cs one recv at a time, then end of stream, then later. */
  predicate DeliversPieces(rs: seq<Reception<char>>, cs: seq<string>, later: seq<Reception<char>>)
    decreases |cs|
  {
    if cs == [] then rs == [Received([])] + later
    else rs != [] && rs[0] == Received(cs[0]) && 0 < |cs[0]| <= CHUNK_SIZE && DeliversPieces(rs[1..], cs[1..], later)
  }

  lemma {:induction false} DeliveriesDeliver(cs: seq<string>, later: seq<Reception<char>>)
    requires Chunked(cs)
    ensures DeliversPieces(Deliveries(cs) + [Received([])] + later, cs, later)
    decreases |cs|
  {
    if cs != [] {
      DeliveriesDeliver(cs[1..], later);
      var rs := Deliveries(cs) + [Received([])] + later;
      assert Deliveries(cs) == [Received(cs[0])] + Deliveries(cs[1..]);
      assert rs[1..] == Deliveries(cs[1..]) + [Received([])] + later;
    }
  }

  /** A reply delivered in pieces of at most CHUNK_SIZE bytes and then closed (a 0-byte
      recv) is received whole: the loop writes exactly the reply and stops just past
      it, whenever it fits below MAX_RECV_SIZE; one recv per piece plus the final one. */
  lemma DrainChunks(e: Endpoint<char>, pos: nat, cs: seq<string>, later: seq<Reception<char>>)
    requires Chunked(cs) && pos + |Flatten(cs)| < MAX_RECV_SIZE
    requires e.open && e.recvReplies == Deliveries(cs) + [Received([])] + later
    ensures Drain(e, pos).1 == Flatten(cs) && Drain(e, pos).2 == pos + |Flatten(cs)|
    ensures Drain(e, pos).0.recvReplies == later
    ensures Drain(e, pos).0.recvCalls == e.recvCalls + |cs| + 1
  {
    DeliveriesDeliver(cs, later);
    DrainDelivered(e, pos, cs, later);
  }

  lemma {:induction false} DrainDelivered(e: Endpoint<char>, pos: nat, cs: seq<string>, later: seq<Reception<char>>)
    requires pos + |Flatten(cs)| < MAX_RECV_SIZE
    requires e.open && DeliversPieces(e.recvReplies, cs, later)
    ensures Drain(e, pos).1 == Flatten(cs) && Drain(e, pos).2 == pos + |Flatten(cs)|
    ensures Drain(e, pos).0.recvReplies == later
    ensures Drain(e, pos).0.recvCalls == e.recvCalls + |cs| + 1
    decreases |cs|
  {
    if cs == [] {
      DrainEndOfStream(e, pos);
      assert e.recvReplies[1..] == later;
    } else {
      DrainOneChunk(e, pos, cs[0]);
      DrainDelivered(AfterRecv(e), pos + |cs[0]|, cs[1..], later);
    }
  }

  /** A chunk of data is written at pos and the loop goes on after it. */
  lemma DrainOneChunk(e: Endpoint<char>, pos: nat, chunk: string)
    requires pos < MAX_RECV_SIZE && 0 < |chunk| <= CHUNK_SIZE
    requires e.open && e.recvReplies != [] && e.recvReplies[0] == Received(chunk)
    ensures var d := Drain(AfterRecv(e), pos + |chunk|);
      Drain(e, pos).0 == d.0 && Drain(e, pos).1 == chunk + d.1 && Drain(e, pos).2 == d.2
  {
    assert RecvResult(e, CHUNK_SIZE) == (|chunk|, chunk);
  }

  /** End of stream: nothing more is written and the position stays. */
  lemma DrainEndOfStream(e: Endpoint<char>, pos: nat)
    requires pos < MAX_RECV_SIZE
    requires e.open && e.recvReplies != [] && e.recvReplies[0] == Received([])
    ensures Drain(e, pos) == (AfterRecv(e), [], pos)
  {
    assert RecvResult(e, CHUNK_SIZE) == (0, []);
  }

  /** A receive that fails straight away writes nothing and leaves the position at -1. */
  lemma DrainFailsAtOnce(e: Endpoint<char>)
    requires !e.open || e.recvReplies == [] || e.recvReplies[0] == Failed
    ensures Drain(e, 0).1 == [] && Drain(e, 0).2 == -1
  {
  }

  /** The buffer after the loop from position 0: the text received, over the old contents. */
  function AfterDrain(buf: seq<char>, text: string): (r: seq<char>)
    requires |buf| == XML_BUFFER_SIZE && |text| < XML_BUFFER_SIZE
    ensures |r| == XML_BUFFER_SIZE && r[..|text|] == text && r[|text|..] == buf[|text|..]
  {
    Overwrite(buf, 0, text)
  }

  // ---------------------------------------------------------------- sendTCPrequest

  /** The outcome of sendTCPrequest(cmd) on the HTTP endpoint h with receive buffer buf:
      whether it reports success, the endpoint after it and the buffer after it. */
  function TcpExchange(h: Endpoint<char>, buf: seq<char>, host: string, cmd: string): (r: (bool, Endpoint<char>, seq<char>))
    requires |buf| == XML_BUFFER_SIZE
    ensures |r.2| == XML_BUFFER_SIZE
  {
    if cmd == [] then (false, h, buf)
    else
      var h1 := AfterSend(h, HttpGet(cmd, "HTTP/1.0", host));
      if SendResult(h) < 0 then (false, h1, buf)
      else
        var d := Drain(h1, 0);
        var b := AfterDrain(buf, d.1);
        (d.2 > 4 && b[..|REDIRECT_REPLY|] == REDIRECT_REPLY, d.0, b)
  }

  /** An empty command is refused before anything is sent or received. */
  lemma TcpEmptyCommand(h: Endpoint<char>, buf: seq<char>, host: string)
    requires |buf| == XML_BUFFER_SIZE
    ensures TcpExchange(h, buf, host, "") == (false, h, buf)
  {
  }

  /** sendTCPrequest succeeds exactly when the command is non-empty, the request was
      sent, more than 4 bytes came back and the buffer then begins with the redirect
      line (bytes past those received are whatever the buffer held before). */
  lemma TcpSuccess(h: Endpoint<char>, buf: seq<char>, host: string, cmd: string)
    requires |buf| == XML_BUFFER_SIZE
    ensures var d := Drain(AfterSend(h, HttpGet(cmd, "HTTP/1.0", host)), 0);
      TcpExchange(h, buf, host, cmd).0 <==>
        cmd != [] && SendResult(h) >= 0 && d.2 > 4 && AfterDrain(buf, d.1)[..18] == REDIRECT_REPLY
  {
  }

  /** A failed send ends the request: nothing is received and the buffer is untouched. */
  lemma TcpSendFails(h: Endpoint<char>, buf: seq<char>, host: string, cmd: string)
    requires |buf| == XML_BUFFER_SIZE && cmd != [] && SendResult(h) < 0
    ensures TcpExchange(h, buf, host, cmd) == (false, AfterSend(h, HttpGet(cmd, "HTTP/1.0", host)), buf)
  {
  }

  /** A non-empty command always goes out as one HTTP/1.0 GET, whatever happens next. */
  lemma TcpSendsOneRequest(h: Endpoint<char>, buf: seq<char>, host: string, cmd: string)
    requires |buf| == XML_BUFFER_SIZE && cmd != []
    ensures TcpExchange(h, buf, host, cmd).1.sent == h.sent + [HttpGet(cmd, "HTTP/1.0", host)]
  {
  }

  /** A server that accepts the request and answers with the redirect line (plus
      anything else, as long as it fits) makes sendTCPrequest succeed. */
  lemma TcpAcceptedByServer(h: Endpoint<char>, buf: seq<char>, host: string, cmd: string, cs: seq<string>, n: int)
    requires |buf| == XML_BUFFER_SIZE && cmd != [] && n >= 0 && Chunked(cs)
    requires var reply := Flatten(cs);
      |reply| < MAX_RECV_SIZE && |reply| >= |REDIRECT_REPLY| && reply[..|REDIRECT_REPLY|] == REDIRECT_REPLY
    requires h.open && h.sendReplies == [n] && h.recvReplies == Deliveries(cs) + [Received([])]
    ensures TcpExchange(h, buf, host, cmd).0
  {
    var h1 := AfterSend(h, HttpGet(cmd, "HTTP/1.0", host));
    var reply := Flatten(cs);
    assert h1.recvReplies == Deliveries(cs) + [Received([])] + [];
    DrainChunks(h1, 0, cs, []);
    PrefixOfPrefix(AfterDrain(buf, reply), reply, |REDIRECT_REPLY|);
  }

  /** Any other reply of at least 18 characters makes it fail. */
  lemma TcpRejectedByServer(h: Endpoint<char>, buf: seq<char>, host: string, cmd: string, cs: seq<string>, n: int)
    requires |buf| == XML_BUFFER_SIZE && cmd != [] && n >= 0 && Chunked(cs)
    requires var reply := Flatten(cs);
      |reply| < MAX_RECV_SIZE && |reply| >= |REDIRECT_REPLY| && reply[..|REDIRECT_REPLY|] != REDIRECT_REPLY
    requires h.open && h.sendReplies == [n] && h.recvReplies == Deliveries(cs) + [Received([])]
    ensures !TcpExchange(h, buf, host, cmd).0
  {
    var h1 := AfterSend(h, HttpGet(cmd, "HTTP/1.0", host));
    var reply := Flatten(cs);
    assert h1.recvReplies == Deliveries(cs) + [Received([])] + [];
    DrainChunks(h1, 0, cs, []);
    PrefixOfPrefix(AfterDrain(buf, reply), reply, |REDIRECT_REPLY|);
  }

  lemma PrefixOfPrefix<T>(a: seq<T>, b: seq<T>, n: nat)
    requires n <= |b| <= |a| && a[..|b|] == b
    ensures a[..n] == b[..n]
  {
    assert a[..n] == a[..|b|][..n];
  }

  // ---------------------------------------------------------------- setRDTOutputRate

  /** The rates setRDTOutputRate forwards to the sensor. */
  predicate ValidRate(rate: uint32) {
    0 < rate as int <= MAX_RDT_RATE
  }

  /** The configuration page that sets the RDT output rate. */
  function RateCommand(rate: uint32): (cmd: string)
    ensures |cmd| > 21 && cmd[..21] == "/comm.cgi?comrdtrate="
    ensures AllDigits(cmd[21..]) && DigitsValue(cmd[21..]) == rate as int
  {
    NatToDecimalValue(rate as nat);
    var cmd := "/comm.cgi?comrdtrate=" + NatToDecimal(rate as nat);
    assert cmd[21..] == NatToDecimal(rate as nat);
    cmd
  }

  // ---------------------------------------------------------------- setGaugeBias

  /** The smallest key of a non-empty key set: std::map iterates in ascending order. */
  ghost function MinKey(ks: set<uint32>): (k: uint32)
    requires ks != {}
    ensures k in ks && forall j | j in ks :: k <= j
    decreases ks
  {
    var x :| x in ks;
    if ks - {x} == {} then
      assert forall j | j in ks :: j == x by {
        forall j | j in ks ensures j == x {
          assert j !in ks - {x};
        }
      }
      x
    else
      var y := MinKey(ks - {x});
      assert forall j | j in ks :: j == x || j in ks - {x};
      if x <= y then x else y
  }

  /** The entries of a map in the order std::map visits them. */
  ghost function Entries(m: map<uint32, int32>): (es: seq<(uint32, int32)>)
    ensures |es| == |m|
    ensures forall i | 0 <= i < |es| :: es[i].0 in m && m[es[i].0] == es[i].1
    decreases |m|
  {
    if m == map[] then []
    else
      var k := MinKey(m.Keys);
      RemoveKey(m, k);
      [(k, m[k])] + Entries(m - {k})
  }

  lemma RemoveKey(m: map<uint32, int32>, k: uint32)
    requires k in m
    ensures (m - {k}).Keys == m.Keys - {k} && |m - {k}| == |m| - 1
  {
    assert (m - {k}).Keys == m.Keys - {k};
  }

  /** The first entry is the smallest key; the rest are the entries of the others. */
  lemma EntriesHead(m: map<uint32, int32>)
    requires m != map[]
    ensures var k := MinKey(m.Keys);
      && Entries(m) == [(k, m[k])] + Entries(m - {k})
      && (m - {k}).Keys == m.Keys - {k} && |m - {k}| == |m| - 1
  {
    RemoveKey(m, MinKey(m.Keys));
  }

  /** The smallest key is the one MinKey picks. */
  lemma MinKeyUnique(ks: set<uint32>, k: uint32)
    requires k in ks && forall j | j in ks :: k <= j
    ensures MinKey(ks) == k
  {
  }

  /** The keys of the entries are the keys of the map. */
  lemma EntryKeys(m: map<uint32, int32>, k: uint32)
    requires k in m
    ensures exists i | 0 <= i < |Entries(m)| :: Entries(m)[i].0 == k
  {
    EntriesCover(m, k);
  }

  /** Taking the least key of what is left moves its entry to the end of what is done. */
  lemma EntriesStep(m: map<uint32, int32>, rest: map<uint32, int32>, done: seq<(uint32, int32)>, k: uint32)
    requires Entries(m) == done + Entries(rest)
    requires k in rest && forall j | j in rest :: k <= j
    ensures Entries(m) == done + [(k, rest[k])] + Entries(rest - {k})
    ensures |rest - {k}| == |rest| - 1
  {
    MinKeyUnique(rest.Keys, k);
    EntriesHead(rest);
    Assoc(done, [(k, rest[k])], Entries(rest - {k}));
  }

  /** Keys strictly increasing along the sequence. */
  ghost predicate Ascending(es: seq<(uint32, int32)>) {
    forall i, j | 0 <= i < j < |es| :: es[i].0 < es[j].0
  }

  lemma AscendingCons(x: (uint32, int32), t: seq<(uint32, int32)>)
    requires Ascending(t) && forall i | 0 <= i < |t| :: x.0 < t[i].0
    ensures Ascending([x] + t)
  {
    var s := [x] + t;
    forall i, j | 0 <= i < j < |s| ensures s[i].0 < s[j].0 {
      if i == 0 {
        assert s[j] == t[j - 1];
      } else {
        assert s[i] == t[i - 1] && s[j] == t[j - 1];
      }
    }
  }

  /** Entries visits the keys in strictly ascending order, so each key once. */
  lemma {:induction false} EntriesAscending(m: map<uint32, int32>)
    ensures Ascending(Entries(m))
    decreases |m|
  {
    if m != map[] {
      var k := MinKey(m.Keys);
      var rest := m - {k};
      EntriesHead(m);
      EntriesAscending(rest);
      forall i | 0 <= i < |Entries(rest)| ensures k < Entries(rest)[i].0 {
        assert Entries(rest)[i].0 in rest;
      }
      AscendingCons((k, m[k]), Entries(rest));
    }
  }

  /** Every entry of the map is visited. */
  lemma {:induction false} EntriesCover(m: map<uint32, int32>, k: uint32)
    requires k in m
    ensures exists i | 0 <= i < |Entries(m)| :: Entries(m)[i] == (k, m[k])
    decreases |m|
  {
    var k0 := MinKey(m.Keys);
    EntriesHead(m);
    if k == k0 {
      assert Entries(m)[0] == (k, m[k]);
    } else {
      var rest := m - {k0};
      assert k in rest && rest[k] == m[k];
      EntriesCover(rest, k);
      var i :| 0 <= i < |Entries(rest)| && Entries(rest)[i] == (k, rest[k]);
      assert Entries(m)[i + 1] == (k, m[k]);
    }
  }

  /** The map with only the key k has it as its one entry. */
  lemma EntriesSingleton(k: uint32, v: int32)
    ensures Entries(map[k := v]) == [(k, v)]
  {
    var m := map[k := v];
    assert m.Keys == {k};
    assert m - {k} == map[];
  }

  /** One query parameter: "setbias<k>=<v>". */
  function Param(e: (uint32, int32)): (p: string)
    ensures |p| > 8 && p[..7] == "setbias"
  {
    "setbias" + NatToDecimal(e.0 as nat) + "=" + IntToDecimal(e.1 as int)
  }

  /** A parameter never holds the separator "&". */
  lemma ParamClean(e: (uint32, int32))
    ensures Clean(Param(e), '&')
  {
    var k, v := NatToDecimal(e.0 as nat), IntToDecimal(e.1 as int);
    assert AllDigits(k);
    if e.1 < 0 {
      assert AllDigits(v[1..]);
    } else {
      assert AllDigits(v);
    }
    assert Param(e) == "setbias" + k + "=" + v;
  }

  /** The query setGaugeBias builds from entries es: "?" before the first parameter,
      "&" before each later one. */
  function Query(es: seq<(uint32, int32)>, first: bool): string
    decreases |es|
  {
    if es == [] then [] else (if first then "?" else "&") + Param(es[0]) + Query(es[1..], false)
  }

  /** The setting page setGaugeBias requests for a map whose keys are all valid. */
  ghost function BiasCommand(m: map<uint32, int32>): string {
    "/setting.cgi" + Query(Entries(m), true)
  }

  /** The parameters of the query, in order. */
  function Params(es: seq<(uint32, int32)>): (ps: seq<string>)
    ensures |ps| == |es|
    decreases |es|
  {
    if es == [] then [] else [Param(es[0])] + Params(es[1..])
  }

  lemma {:induction false} ParamsAt(es: seq<(uint32, int32)>, i: nat)
    requires i < |es|
    ensures Params(es)[i] == Param(es[i])
    decreases i
  {
    if i > 0 {
      ParamsAt(es[1..], i - 1);
    }
  }

  /** A query is "?" followed by its parameters joined with "&" (empty for no entries). */
  lemma QueryIsJoin(es: seq<(uint32, int32)>)
    ensures es == [] ==> Query(es, true) == []
    ensures es != [] ==> Query(es, true) == "?" + Join(Params(es), '&')
  {
    if es != [] {
      QueryStep(es, true);
    }
  }

  /** After the first parameter, each one is preceded by "&". */
  lemma {:induction false} LaterParams(es: seq<(uint32, int32)>)
    ensures Query(es, false) == (if es == [] then [] else "&" + Join(Params(es), '&'))
    decreases |es|
  {
    if es != [] {
      QueryStep(es, false);
    }
  }

  /** One parameter off the front of a query, the rest by LaterParams. */
  lemma {:induction false} QueryStep(es: seq<(uint32, int32)>, first: bool)
    requires es != []
    ensures Query(es, first) == (if first then "?" else "&") + Join(Params(es), '&')
    decreases |es|, 0
  {
    var p, rest := Param(es[0]), es[1..];
    var sep := if first then "?" else "&";
    QueryHead(es, first);
    LaterParams(rest);
    if rest == [] {
      assert Params(es) == [p];
      assert Join([p], '&') == p;
    } else {
      var ps := Params(rest);
      assert Params(es) == [p] + ps;
      JoinCons(p, ps, '&');
      Regroup(sep, p, "&", Join(ps, '&'));
    }
  }

  lemma QueryHead(es: seq<(uint32, int32)>, first: bool)
    requires es != []
    ensures Query(es, first) == (if first then "?" else "&") + Param(es[0]) + Query(es[1..], false)
  {
  }

  lemma Regroup(a: string, b: string, c: string, d: string)
    ensures a + b + (c + d) == a + (b + c + d)
  {
  }

  /** The query grows one parameter at a time, as setGaugeBias writes it. */
  lemma {:induction false} QuerySnoc(es: seq<(uint32, int32)>, e: (uint32, int32), first: bool)
    ensures Query(es + [e], first) == Query(es, first) + (if es == [] && first then "?" else "&") + Param(e)
    decreases |es|
  {
    if es == [] {
      assert es + [e] == [e];
      QueryHead([e], first);
      assert [e][1..] == [];
    } else {
      var sep := if first then "?" else "&";
      var p0, q1, pe := Param(es[0]), Query(es[1..], false), Param(e);
      assert (es + [e])[0] == es[0] && (es + [e])[1..] == es[1..] + [e];
      QueryHead(es + [e], first);
      QueryHead(es, first);
      QuerySnoc(es[1..], e, false);
      Assoc(sep + p0, q1 + "&", pe);
      Assoc(sep + p0, q1, "&");
    }
  }

  lemma Assoc<T>(a: seq<T>, b: seq<T>, c: seq<T>)
    ensures a + (b + c) == a + b + c
  {
  }

  /** Splitting the query after its "?" at '&' gives back the parameters, in order. */
  lemma QuerySplits(es: seq<(uint32, int32)>)
    requires es != []
    ensures Query(es, true)[0] == '?'
    ensures Tokens(Query(es, true)[1..], '&') == Params(es)
  {
    QueryIsJoin(es);
    var ps := Params(es);
    assert Query(es, true)[1..] == Join(ps, '&');
    forall k | 0 <= k < |ps| ensures Clean(ps[k], '&') {
      ParamsAt(es, k);
      ParamClean(es[k]);
    }
    TokensOfJoin(ps, '&');
  }

  /** The map the vector overload builds: element i under key i. */
  function VectorMap(v: seq<int32>): (m: map<uint32, int32>)
    ensures forall k: uint32 | k in m :: (k as int) < |v| && m[k] == v[k]
    ensures forall k: uint32 | (k as int) < |v| :: k in m
  {
    map k: uint32 | (k as int) < |v| :: v[k]
  }

  /** (lo, v[lo]), (lo + 1, v[lo + 1]), ..., the last element of v. */
  function VectorPairs(v: seq<int32>, lo: nat): (es: seq<(uint32, int32)>)
    requires |v| <= 0x1_0000_0000 && lo <= |v|
    ensures |es| == |v| - lo
    ensures forall i | 0 <= i < |es| :: es[i] == ((lo + i) as uint32, v[lo + i])
    decreases |v| - lo
  {
    if lo == |v| then [] else [(lo as uint32, v[lo])] + VectorPairs(v, lo + 1)
  }

  /** The entries of the vector map from key lo on are its elements from lo on. */
  lemma {:induction false} VectorEntriesFrom(v: seq<int32>, lo: nat)
    requires |v| <= 0x1_0000_0000 && lo <= |v|
    ensures Entries(map k: uint32 | lo <= (k as int) < |v| :: v[k]) == VectorPairs(v, lo)
    decreases |v| - lo
  {
    var m := map k: uint32 | lo <= (k as int) < |v| :: v[k];
    if lo == |v| {
      assert m == map[];
    } else {
      var k0 := lo as uint32;
      assert k0 in m;
      assert MinKey(m.Keys) == k0;
      var rest := map k: uint32 | lo + 1 <= (k as int) < |v| :: v[k];
      assert forall k: uint32 :: k in rest <==> k in m && k != k0;
      assert m - {k0} == rest;
      VectorEntriesFrom(v, lo + 1);
      EntriesHead(m);
    }
  }

  /** The vector overload visits element i as key i. */
  lemma VectorEntries(v: seq<int32>)
    requires |v| <= 0x1_0000_0000
    ensures Entries(VectorMap(v)) == VectorPairs(v, 0)
  {
    VectorEntriesFrom(v, 0);
    assert VectorMap(v) == map k: uint32 | 0 <= (k as int) < |v| :: v[k];
  }

  // ---------------------------------------------------------------- getCalibrationData

  /** "?index=<n>" unless the index is the current-calibration sentinel. */
  function IndexSuffix(index: int): (s: string)
    ensures s == [] <==> index == CURRENT_CALIBRATION
  {
    if index != CURRENT_CALIBRATION then "?index=" + IntToDecimal(index) else ""
  }

  /** Any other index is asked for by its decimal text, which reads back as the index. */
  lemma IndexSuffixDecimal(index: int)
    requires index != CURRENT_CALIBRATION
    ensures var s := IndexSuffix(index);
      |s| > 7 && s[..7] == "?index=" && IsDecimal(s[7..]) && DecimalValue(s[7..]) == index
  {
    IntToDecimalRoundTrip(index);
    assert IndexSuffix(index)[7..] == IntToDecimal(index);
  }

  /** The calibration page of the sensor's web server. */
  function CalibrationPath(index: int): (p: string)
    ensures |p| >= 14
  {
    "/netftapi2.xml" + IndexSuffix(index)
  }

  /** The page name, then the suffix. */
  lemma CalibrationPathLayout(index: int)
    ensures var p := CalibrationPath(index);
      p[..14] == "/netftapi2.xml" && p[14..] == IndexSuffix(index)
  {
  }

  /** Different indices ask for different pages. */
  lemma CalibrationPathInjective(i: int, j: int)
    requires CalibrationPath(i) == CalibrationPath(j)
    ensures i == j
  {
    CalibrationPathLayout(i);
    CalibrationPathLayout(j);
    assert IndexSuffix(i) == CalibrationPath(i)[14..] == IndexSuffix(j);
    if i != CURRENT_CALIBRATION {
      IndexSuffixDecimal(i);
      IndexSuffixDecimal(j);
    }
  }

  /** The RTnet branch of getCalibrationData up to the copy into xml_s_: one HTTP/1.1
      GET of the calibration page (a failed send is only logged), then the receive loop
      into buf from position 0. The result is the endpoint and the buffer after it. */
  function CalibrationFetch(h: Endpoint<char>, buf: seq<char>, host: string, index: int): (r: (Endpoint<char>, seq<char>))
    requires |buf| == XML_BUFFER_SIZE
    ensures |r.1| == XML_BUFFER_SIZE
    ensures r.0.sent == h.sent + [HttpGet(CalibrationPath(index), "HTTP/1.1", host)]
  {
    var h1 := AfterSend(h, HttpGet(CalibrationPath(index), "HTTP/1.1", host));
    var d := Drain(h1, 0);
    (d.0, AfterDrain(buf, d.1))
  }

  /** Whatever the send returns, a page the server delivers in pieces and then closes is
      what xml_s_ holds afterwards, provided it has no NUL and the buffer has one just
      past it; otherwise the copy runs on into old buffer contents. */
  lemma CalibrationPageReceived(h: Endpoint<char>, buf: seq<char>, host: string, index: int, cs: seq<string>)
    requires |buf| == XML_BUFFER_SIZE && Chunked(cs) && |Flatten(cs)| < MAX_RECV_SIZE
    requires h.open && h.recvReplies == Deliveries(cs) + [Received([])]
    requires '\0' !in Flatten(cs) && buf[|Flatten(cs)|] == '\0'
    ensures CString(CalibrationFetch(h, buf, host, index).1) == Flatten(cs)
  {
    var page := Flatten(cs);
    var h1 := AfterSend(h, HttpGet(CalibrationPath(index), "HTTP/1.1", host));
    assert h1.recvReplies == Deliveries(cs) + [Received([])] + [];
    DrainChunks(h1, 0, cs, []);
    var b := AfterDrain(buf, page);
    CStringAt(b, |page|);
  }
}
