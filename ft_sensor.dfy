/** The FTSensor driver object: the state it keeps between calls and the operations
    that send RDT commands over the data socket, read RDT records back, and talk to
    the sensor's web server over the HTTP socket.

    The two sockets are Endpoint values (the scripted peers of Transport): sending or
    receiving replaces the field with the endpoint after the call.  The conversions of
    text to numbers (atof/atoi and the casts after them) and the extraction of an XML
    element's text are functions the object is given; nothing about them is assumed. */
module Sensor {
  import opened Wrappers
  import opened Rdt
  import opened Text
  import opened Transport
  import opened Http
  import opened Timeout

  /** Default counts per force and per torque, used until a calibration is read. */
  const DEFAULT_COUNTS: uint32 := 1_000_000

  /** The request_ bytes of a command: the header, the code and the sample count. */
  function Command(code: uint16, count: uint32): (r: seq<byte>)
    ensures |r| == REQUEST_SIZE
  {
    EncodeRequest(Request(COMMAND_HEADER, code, count))
  }

  /** The data endpoint after one doComm: when initialized, the command is sent unless
      the sample count is 0 (a stream already running for ever), then one receive. */
  function Poll(d: Endpoint<byte>, initialized: bool, code: uint16, count: uint32): Endpoint<byte> {
    if !initialized then d else AfterRecv(PollSend(d, code, count))
  }

  /** The data endpoint after the send of doComm, skipped when the sample count is 0. */
  function PollSend(d: Endpoint<byte>, code: uint16, count: uint32): Endpoint<byte> {
    if count != 0 then AfterSend(d, Command(code, count)) else d
  }

  /** A poll of an initialized sensor receives exactly once, and sends the command
      once exactly when the sample count is not 0; otherwise it touches nothing. */
  lemma PollCalls(d: Endpoint<byte>, initialized: bool, code: uint16, count: uint32)
    ensures var p := Poll(d, initialized, code, count);
      && (!initialized ==> p == d)
      && (initialized ==> p.recvCalls == d.recvCalls + 1)
      && (initialized && count != 0 ==> p.sent == d.sent + [Command(code, count)])
      && (initialized && count == 0 ==> p.sent == d.sent)
  {
  }

  /** The loop of setGaugeBias(map): walk the entries in ascending key order, writing
      "?" before the first parameter and "&" before the others; false, as soon as a key
      of 6 or more comes up. */
  method BiasQuery(m: map<uint32, int32>) returns (valid: bool, query: string)
    ensures valid <==> forall k | k in m :: k as int < GAUGE_COUNT
    ensures valid ==> query == Query(Entries(m), true)
  {
    var rest := m;
    query := "";
    var first := true;
    ghost var done: seq<(uint32, int32)> := [];
    while rest != map[]
      invariant Entries(m) == done + Entries(rest)
      invariant first <==> done == []
      invariant query == Query(done, true)
      invariant forall k | k in m && k !in rest :: k as int < GAUGE_COUNT
      invariant rest.Keys <= m.Keys
      decreases |rest|
    {
      var k := LeastKey(rest);
      if k as int >= GAUGE_COUNT {
        return false, query;
      }
      BiasQueryStep(m, rest, done, k);
      query := query + (if first then "?" else "&") + Param((k, rest[k]));
      first := false;
      done := done + [(k, rest[k])];
      rest := rest - {k};
    }
    assert done == Entries(m);
    return true, query;
  }

  /** One turn of setGaugeBias's loop: the least key left moves to what is done, and the
      query gains its parameter. */
  lemma BiasQueryStep(m: map<uint32, int32>, rest: map<uint32, int32>, done: seq<(uint32, int32)>, k: uint32)
    requires Entries(m) == done + Entries(rest)
    requires k in rest && forall j | j in rest :: k <= j
    ensures Entries(m) == done + [(k, rest[k])] + Entries(rest - {k})
    ensures |rest - {k}| == |rest| - 1
    ensures Query(done + [(k, rest[k])], true) == Query(done, true) + (if done == [] then "?" else "&") + Param((k, rest[k]))
  {
    EntriesStep(m, rest, done, k);
    QuerySnoc(done, (k, rest[k]), true);
  }

  /** The key std::map's iteration reaches next: the least one left. */
  method LeastKey(rest: map<uint32, int32>) returns (k: uint32)
    requires rest != map[]
    ensures k in rest && forall j | j in rest :: k <= j
  {
    k :| k in rest && forall j | j in rest :: k <= j by {
      var least := MinKey(rest.Keys);
      assert least in rest;
    }
  }

  /** What getCalibrationData may change besides the HTTP socket and the buffer: the
      gauge biases, the counts per force and per torque, and the RDT rate. */
  datatype CalibrationState = CalibrationState(bias: seq<int32>, cpf: uint32, cpt: uint32, rdtRate: int)

  /** What an RDT exchange may change besides the data socket: the stored record, the
      receive count and the two packet buffers. */
  datatype ExchangeState = ExchangeState(resp: Response, responseRet: int, request: seq<byte>, response: seq<byte>)

  class FTSensor {
    var initialized: bool
    var ip: string
    var port: uint16
    /** cmd_: the streaming mode and the sample count sent with it. */
    var command: uint16
    var sampleCount: uint32
    var calibrationIndex: int
    /** resp_: the last record decoded, and the calibration counts kept beside it. */
    var resp: Response
    var responseRet: int
    var cpf: uint32
    var cpt: uint32
    var rdtRate: int
    var timeout: Timeval
    /** socketHandle_ (UDP, RDT) and socketHTTPHandle_ (TCP, port 80). */
    var data: Endpoint<byte>
    var http: Endpoint<char>

    /** request_, response_, xml_c_ and setbias_. */
    const request: array<byte>
    const response: array<byte>
    const xmlBuf: array<char>
    const setbias: array<int32>

    /** The default argument of start*Streaming(sample_count) in the driver's header: a
        constant the object is given, stored and sent by the argument-less start. */
    const defaultStartCount: uint32

    /** atof followed by the cast to uint32_t, to int, and getStringInXml. */
    const toUnsigned: string -> uint32
    const toInt: string -> int32
    const elementText: (string, string) -> string

    ghost predicate Valid() {
      request.Length == REQUEST_SIZE && response.Length == RDT_RECORD_SIZE &&
      xmlBuf.Length == XML_BUFFER_SIZE && setbias.Length == GAUGE_COUNT &&
      request != response
    }

    /** The command stored in request_ and handed to send: header, code, count. */
    ghost predicate SentCommand(before: Endpoint<byte>, code: uint16, count: uint32)
      reads this, request
    {
      request[..] == Command(code, count) && data == AfterSend(before, Command(code, count))
    }

    /** The constructor: not initialized, default address and port, STOP with one
        sample, the current calibration, default counts, a 2 s timeout and no socket.
        The peers behind the sockets-to-be are parameters; only the data handle is
        set to -1, the HTTP handle is whatever the peer says. */
    constructor (defaultIp: string, dataPeer: Endpoint<byte>, httpPeer: Endpoint<char>, defaultStartCount: uint32,
                 toUnsigned: string -> uint32, toInt: string -> int32, elementText: (string, string) -> string)
      requires !dataPeer.open
      ensures Valid()
      ensures !initialized && ip == defaultIp && port == DEFAULT_PORT
      ensures command == STOP && sampleCount == 1 && calibrationIndex == CURRENT_CALIBRATION
      ensures cpf == DEFAULT_COUNTS && cpt == DEFAULT_COUNTS && rdtRate == 0 && timeout == Timeval(2, 0)
      ensures data == dataPeer && http == httpPeer
      ensures this.defaultStartCount == defaultStartCount
      ensures this.toUnsigned == toUnsigned && this.toInt == toInt && this.elementText == elementText
      ensures fresh(request) && fresh(response) && fresh(xmlBuf) && fresh(setbias)
    {
      initialized := false;
      ip := defaultIp;
      port := DEFAULT_PORT;
      command := STOP;
      sampleCount := 1;
      calibrationIndex := CURRENT_CALIBRATION;
      resp := Response(0, 0, 0, 0, 0, 0, 0, 0, 0);
      responseRet := 0;
      cpf := DEFAULT_COUNTS;
      cpt := DEFAULT_COUNTS;
      rdtRate := 0;
      timeout := Timeval(2, 0);
      data := dataPeer;
      http := httpPeer;
      request := new byte[REQUEST_SIZE](_ => 0);
      response := new byte[RDT_RECORD_SIZE](_ => 0);
      xmlBuf := new char[XML_BUFFER_SIZE](_ => '\0');
      setbias := new int32[GAUGE_COUNT](_ => 0);
      this.defaultStartCount := defaultStartCount;
      this.toUnsigned := toUnsigned;
      this.toInt := toInt;
      this.elementText := elementText;
    }

    // ------------------------------------------------------------ the RDT codec

    /** sendCommand(code): request_ becomes header, code and the stored sample count,
        each big-endian, and is sent; true iff all 8 bytes went out. */
    method SendCommand(code: uint16) returns (ok: bool)
      requires Valid()
      modifies request, this`data
      ensures SentCommand(old(data), code, sampleCount)
      ensures ok <==> SendResult(old(data)) == REQUEST_SIZE
    {
      var h, c, n := BeU16(COMMAND_HEADER), BeU16(code), BeU32(sampleCount);
      request[0], request[1] := h[0], h[1];
      request[2], request[3] := c[0], c[1];
      request[4], request[5], request[6], request[7] := n[0], n[1], n[2], n[3];
      ghost var enc := Command(code, sampleCount);
      assert request[..] == enc by {
        EncodeRequestFields(Request(COMMAND_HEADER, code, sampleCount));
        assert enc[0..2] == h && enc[2..4] == c && enc[4..8] == n;
        assert forall i | 0 <= i < REQUEST_SIZE :: request[i] == enc[i];
      }
      var sent := SendResult(data);
      data := AfterSend(data, request[..]);
      ok := sent == REQUEST_SIZE as int;
    }

    /** sendCommand(): the stored command with the stored sample count. */
    method SendCurrentCommand() returns (ok: bool)
      requires Valid()
      modifies request, this`data
      ensures SentCommand(old(data), command, sampleCount)
      ensures ok <==> SendResult(old(data)) == REQUEST_SIZE
    {
      ok := SendCommand(command);
    }

    /** getResponse: one recv of up to 36 bytes into response_, which is then decoded
        whole (bytes not received keep their old values); true iff exactly
        RDT_RECORD_SIZE bytes arrived. */
    method GetResponse() returns (ok: bool)
      requires Valid()
      modifies response, this`data, this`resp, this`responseRet
      ensures var (n, got) := RecvResult(old(data), RDT_RECORD_SIZE);
        && responseRet == n
        && response[..] == Overwrite(old(response[..]), 0, got)
        && data == AfterRecv(old(data))
      ensures resp == DecodeResponse(response[..])
      ensures ok <==> responseRet == RDT_RECORD_SIZE
      ensures ok ==> response[..] == RecvResult(old(data), RDT_RECORD_SIZE).1
    {
      var n, got := RecvInto(response, RDT_RECORD_SIZE);
      responseRet := n;
      resp := DecodeResponse(response[..]);
      ok := responseRet == RDT_RECORD_SIZE as int;
    }

    /** One recv into the start of buf: the count, and the bytes written. */
    method RecvInto(buf: array<byte>, max: nat) returns (n: int, ghost got: seq<byte>)
      requires max <= buf.Length
      modifies buf, this`data
      ensures (n, got) == RecvResult(old(data), max)
      ensures buf[..] == Overwrite(old(buf[..]), 0, got)
      ensures data == AfterRecv(old(data))
    {
      var r := RecvResult(data, max);
      n, got := r.0, r.1;
      data := AfterRecv(data);
      ghost var before := buf[..];
      var bytes := r.1;
      for i := 0 to |bytes|
        invariant buf[..] == Overwrite(before, 0, bytes[..i])
        invariant data == AfterRecv(old(data))
      {
        buf[i] := bytes[i];
        assert bytes[..i + 1] == bytes[..i] + [bytes[i]];
      }
      assert bytes[..|bytes|] == bytes;
    }

    // ------------------------------------------------------------ the streaming modes

    method SetCommand(code: uint16)
      modifies this`command
      ensures command == code
    {
      command := code;
    }

    method SetSampleCount(count: uint32)
      modifies this`sampleCount
      ensures sampleCount == count
    {
      sampleCount := count;
    }

    /** start*Streaming(count): store the count and the mode, then send them. */
    method StartMode(mode: uint16, count: uint32) returns (ok: bool)
      requires Valid() && IsStreamingMode(mode)
      modifies request, this`data, this`command, this`sampleCount
      ensures command == mode && sampleCount == count
      ensures SentCommand(old(data), mode, count)
      ensures ok <==> SendResult(old(data)) == REQUEST_SIZE
    {
      SetSampleCount(count);
      SetCommand(mode);
      ok := SendCurrentCommand();
    }

    method StartRealTimeStreaming(count: uint32) returns (ok: bool)
      requires Valid()
      modifies request, this`data, this`command, this`sampleCount
      ensures command == REALTIME && sampleCount == count
      ensures SentCommand(old(data), REALTIME, count)
      ensures ok <==> SendResult(old(data)) == REQUEST_SIZE
    {
      ok := StartMode(REALTIME, count);
    }

    method StartBufferedStreaming(count: uint32) returns (ok: bool)
      requires Valid()
      modifies request, this`data, this`command, this`sampleCount
      ensures command == BUFFERED && sampleCount == count
      ensures SentCommand(old(data), BUFFERED, count)
      ensures ok <==> SendResult(old(data)) == REQUEST_SIZE
    {
      ok := StartMode(BUFFERED, count);
    }

    method StartMultiUnitStreaming(count: uint32) returns (ok: bool)
      requires Valid()
      modifies request, this`data, this`command, this`sampleCount
      ensures command == MULTIUNIT && sampleCount == count
      ensures SentCommand(old(data), MULTIUNIT, count)
      ensures ok <==> SendResult(old(data)) == REQUEST_SIZE
    {
      ok := StartMode(MULTIUNIT, count);
    }

    /** startStreaming(): restart the stored mode through start*Streaming() with the
        header's default count; any other stored command is refused without a send. */
    method StartCurrentStreaming() returns (ok: bool)
      requires Valid()
      modifies request, this`data, this`command, this`sampleCount
      ensures command == old(command)
      ensures IsStreamingMode(command) ==> sampleCount == defaultStartCount
      ensures IsStreamingMode(command) ==> SentCommand(old(data), command, defaultStartCount)
      ensures IsStreamingMode(command) ==> (ok <==> SendResult(old(data)) == REQUEST_SIZE)
      ensures !IsStreamingMode(command) ==> !ok && sampleCount == old(sampleCount)
      ensures !IsStreamingMode(command) ==> data == old(data) && request[..] == old(request[..])
    {
      if command == REALTIME {
        ok := StartRealTimeStreaming(defaultStartCount);
      } else if command == BUFFERED {
        ok := StartBufferedStreaming(defaultStartCount);
      } else if command == MULTIUNIT {
        ok := StartMultiUnitStreaming(defaultStartCount);
      } else {
        ok := false;
      }
    }

    /** startStreaming(n): a negative n means the header's default count, any other is
        the new count; the stored mode is re-sent, and a stored command that is not a
        streaming mode is refused without a send. */
    method StartStreaming(n: int32) returns (ok: bool)
      requires Valid()
      modifies request, this`data, this`command, this`sampleCount
      ensures command == old(command)
      ensures IsStreamingMode(command) ==> sampleCount == (if n < 0 then defaultStartCount else n as int as uint32)
      ensures IsStreamingMode(command) ==> SentCommand(old(data), command, sampleCount)
      ensures IsStreamingMode(command) ==> (ok <==> SendResult(old(data)) == REQUEST_SIZE)
      ensures !IsStreamingMode(command) ==> !ok && data == old(data) && request[..] == old(request[..])
      ensures !IsStreamingMode(command) ==> sampleCount == old(sampleCount)
    {
      if n < 0 {
        ok := StartCurrentStreaming();
      } else {
        var count := n as int as uint32;
        if command == REALTIME {
          ok := StartRealTimeStreaming(count);
        } else if command == BUFFERED {
          ok := StartBufferedStreaming(count);
        } else if command == MULTIUNIT {
          ok := StartMultiUnitStreaming(count);
        } else {
          ok := false;
        }
      }
    }

    /** stopStreaming and the two one-shot commands send their own code with the
        stored sample count and leave the stored mode and count as they were. */
    method StopStreaming() returns (ok: bool)
      requires Valid()
      modifies request, this`data
      ensures command == old(command) && sampleCount == old(sampleCount)
      ensures SentCommand(old(data), STOP, sampleCount)
      ensures ok <==> SendResult(old(data)) == REQUEST_SIZE
    {
      ok := SendCommand(STOP);
    }

    method ResetThresholdLatch() returns (ok: bool)
      requires Valid()
      modifies request, this`data
      ensures command == old(command) && sampleCount == old(sampleCount)
      ensures SentCommand(old(data), RESET_THRESHOLD_LATCH, sampleCount)
      ensures ok <==> SendResult(old(data)) == REQUEST_SIZE
    {
      ok := SendCommand(RESET_THRESHOLD_LATCH);
    }

    method SetSoftwareBias() returns (ok: bool)
      requires Valid()
      modifies request, this`data
      ensures command == old(command) && sampleCount == old(sampleCount)
      ensures SentCommand(old(data), SET_SOFTWARE_BIAS, sampleCount)
      ensures ok <==> SendResult(old(data)) == REQUEST_SIZE
    {
      ok := SendCommand(SET_SOFTWARE_BIAS);
    }

    /** setBias: setSoftwareBias, its result dropped. */
    method SetBias()
      requires Valid()
      modifies request, this`data
      ensures command == old(command) && sampleCount == old(sampleCount)
      ensures SentCommand(old(data), SET_SOFTWARE_BIAS, sampleCount)
    {
      var _ := SetSoftwareBias();
    }

    method IsInitialized() returns (b: bool)
      ensures b == initialized
    {
      b := initialized;
    }

    /** doComm, once per poll: nothing unless initialized; then the stored command is
        sent unless the sample count is 0, and one record is received into response_
        and decoded. The mode and the flag never change. */
    method DoComm()
      requires Valid()
      modifies request, response, this`data, this`resp, this`responseRet
      ensures command == old(command) && sampleCount == old(sampleCount) && initialized == old(initialized)
      ensures data == Poll(old(data), initialized, command, sampleCount)
      ensures initialized ==> request[..] == if sampleCount != 0 then Command(command, sampleCount) else old(request[..])
      ensures initialized ==> var (n, got) := RecvResult(PollSend(old(data), command, sampleCount), RDT_RECORD_SIZE);
        responseRet == n && response[..] == Overwrite(old(response[..]), 0, got)
      ensures initialized ==> resp == DecodeResponse(response[..])
      ensures !initialized ==> resp == old(resp) && responseRet == old(responseRet)
      ensures !initialized ==> request[..] == old(request[..]) && response[..] == old(response[..])
    {
      var init := IsInitialized();
      if init {
        if sampleCount != 0 {
          var sent := SendCurrentCommand();
        }
        var got := GetResponse();
      }
    }

    // ------------------------------------------------------------ sockets and init

    /** openSockets: the HTTP socket, then the data socket; true iff both are valid. */
    method OpenSockets() returns (ok: bool)
      modifies this`data, this`http
      ensures http == Opened(old(http)) && data == Opened(old(data))
      ensures ok <==> old(http).canOpen && old(data).canOpen
    {
      http := Opened(http);
      data := Opened(data);
      ok := http.open && data.open;
    }

    /** The sample count startStreaming(count) stores. */
    function StartCount(count: int32): uint32 {
      if count < 0 then defaultStartCount else count as int as uint32
    }

    /** The data endpoint after init's stop command and its start command (when the
        requested mode is a streaming mode), from the endpoint just opened; a negative
        count starts with the header's default count. */

    ghost function InitSends(d: Endpoint<byte>, mode: uint16, count: int32): Endpoint<byte> {
      var stopped := AfterSend(d, Command(STOP, 1));
      if IsStreamingMode(mode) then
        AfterSend(stopped, Command(mode, StartCount(count)))
      else stopped
    }

    /** The RDT part of the state init leaves once both sockets opened, from the data
        endpoint d just opened and the contents rsp of response_ before: the mode and
        count stored, the stop and the start sent, one recv whose count is kept and whose
        bytes are written over the start of response_, the record decoded from it, and
        the flag set iff the start went out in full and a whole record came back. */
    ghost predicate Launched(d: Endpoint<byte>, rsp: seq<byte>, mode: uint16, count: int32)
      reads this`command, this`sampleCount, this`data, this`responseRet, this`resp, this`initialized
      reads response
      requires |rsp| == RDT_RECORD_SIZE && response.Length == RDT_RECORD_SIZE
    {
      var sends := InitSends(d, mode, count);
      && command == mode
      && sampleCount == (if IsStreamingMode(mode) then StartCount(count) else 1)
      && data == AfterRecv(sends)
      && responseRet == RecvResult(sends, RDT_RECORD_SIZE).0
      && response[..] == Overwrite(rsp, 0, RecvResult(sends, RDT_RECORD_SIZE).1)
      && resp == DecodeResponse(response[..])
      && (initialized <==> IsStreamingMode(mode) && SendResult(AfterSend(d, Command(STOP, 1))) == REQUEST_SIZE
                           && RecvResult(sends, RDT_RECORD_SIZE).0 == RDT_RECORD_SIZE)
    }

    /** The state init leaves once both sockets opened, from the endpoints d and h just
        opened and the receive buffer buf: the requested mode stored, with the count
        (the header's default count when it is negative; 1 when the mode is not a
        streaming mode);
        the stop and the start sent and one record received; the flag set iff the
        start went out in full and a whole record came back; and in that case the
        calibration page fetched into the buffer and parsed, otherwise the HTTP socket,
        the buffer and the calibration state untouched. */
    ghost predicate SessionStarted(d: Endpoint<byte>, h: Endpoint<char>, buf: seq<char>, rsp: seq<byte>,
                                   mode: uint16, count: int32, prev: CalibrationState)
      reads this, xmlBuf, setbias, response
      requires |buf| == XML_BUFFER_SIZE && |rsp| == RDT_RECORD_SIZE && |prev.bias| == GAUGE_COUNT
      requires response.Length == RDT_RECORD_SIZE
    {
      && Launched(d, rsp, mode, count)
      && (initialized ==> var f := CalibrationFetch(h, buf, ip, calibrationIndex);
           http == f.0 && xmlBuf[..] == f.1 && Calibrated(CString(f.1), prev.bias, prev.cpf, prev.cpt))
      && (!initialized ==> http == h && xmlBuf[..] == buf && Calibration() == prev)
    }

    /** The part of init after the sockets opened: stopStreaming (its result only
        logged), setCommand(cmd), startStreaming(sample_count) and getResponse, each
        called whatever the one before returned, and getCalibrationData (its result
        ignored) when both the start and the response succeeded. */
    method StartSession(mode: uint16, count: int32)
      requires Valid() && initialized && sampleCount == 1
      modifies request, response, xmlBuf, setbias, this`data, this`http, this`command, this`sampleCount
      modifies this`resp, this`responseRet, this`initialized, this`cpf, this`cpt, this`rdtRate
      ensures SessionStarted(old(data), old(http), old(xmlBuf[..]), old(response[..]), mode, count, old(Calibration()))
    {
      Launch(old(data), old(response[..]), mode, count);
      FinishSession(old(data), old(http), old(xmlBuf[..]), old(response[..]), mode, count, old(Calibration()));
    }

    /** The RDT steps of init's session: the stop, the start and the first recv, with
        the flag narrowed by each; d and rsp are the data endpoint and response_ before. */
    method Launch(ghost d: Endpoint<byte>, ghost rsp: seq<byte>, mode: uint16, count: int32)
      requires Valid() && initialized && sampleCount == 1 && data == d && response[..] == rsp
      modifies request, response, this`data, this`command, this`sampleCount
      modifies this`resp, this`responseRet, this`initialized
      ensures Launched(d, rsp, mode, count)
    {
      var started, got := StartAndPoll(mode, count);
      initialized := initialized && started;
      initialized := initialized && got;
    }

    /** The end of init's session: getCalibrationData when the flag is set, from the
        launched RDT state and the HTTP endpoint h, the buffer buf and the calibration
        state prev as they stand. */
    method FinishSession(ghost d: Endpoint<byte>, ghost h: Endpoint<char>, ghost buf: seq<char>, ghost rsp: seq<byte>,
                         mode: uint16, count: int32, ghost prev: CalibrationState)
      requires Valid() && |rsp| == RDT_RECORD_SIZE && Launched(d, rsp, mode, count)
      requires http == h && xmlBuf[..] == buf && Calibration() == prev
      modifies xmlBuf, setbias, this`http, this`cpf, this`cpt, this`rdtRate
      ensures SessionStarted(d, h, buf, rsp, mode, count, prev)
    {
      CalibrateIf(initialized);
    }

    /** init's call of getCalibrationData, made only when the session started; init
        ignores its result. */
    method CalibrateIf(started: bool)
      requires Valid()
      modifies xmlBuf, setbias, this`http, this`cpf, this`cpt, this`rdtRate
      ensures started ==> var f := CalibrationFetch(old(http), old(xmlBuf[..]), ip, calibrationIndex);
        http == f.0 && xmlBuf[..] == f.1 && Calibrated(CString(f.1), old(setbias[..]), old(cpf), old(cpt))
      ensures !started ==> http == old(http) && xmlBuf[..] == old(xmlBuf[..]) && setbias[..] == old(setbias[..])
      ensures !started ==> cpf == old(cpf) && cpt == old(cpt) && rdtRate == old(rdtRate)
    {
      if started {
        var _ := GetCalibrationData();
      }
    }

    /** stopStreaming, setCommand(cmd), startStreaming(sample_count) and getResponse:
        whether the start went out in full, and whether a whole record came back. */
    method StartAndPoll(mode: uint16, count: int32) returns (started: bool, got: bool)
      requires Valid() && sampleCount == 1
      modifies request, response, this`data, this`command, this`sampleCount, this`resp, this`responseRet
      ensures command == mode
      ensures sampleCount == (if IsStreamingMode(mode) then StartCount(count) else 1)
      ensures data == AfterRecv(InitSends(old(data), mode, count))
      ensures started <==> IsStreamingMode(mode) && SendResult(AfterSend(old(data), Command(STOP, 1))) == REQUEST_SIZE
      ensures got <==> RecvResult(InitSends(old(data), mode, count), RDT_RECORD_SIZE).0 == RDT_RECORD_SIZE
      ensures responseRet == RecvResult(InitSends(old(data), mode, count), RDT_RECORD_SIZE).0
      ensures response[..] == Overwrite(old(response[..]), 0, RecvResult(InitSends(old(data), mode, count), RDT_RECORD_SIZE).1)
      ensures resp == DecodeResponse(response[..])
    {
      ghost var d0 := data;
      var stopped := StopStreaming();
      assert data == AfterSend(d0, Command(STOP, 1));
      SetCommand(mode);
      started := StartStreaming(count);
      assert data == InitSends(d0, mode, count);
      got := GetResponse();
    }

    /** init: reset the parameters (STOP, one sample), open both sockets and, when the
        address is non-empty and both opened, start the session; the result is the
        flag, false when the address is empty or a socket did not open. */
    method Init(address: string, index: int, mode: uint16, count: int32) returns (ok: bool)
      requires Valid()
      modifies request, response, xmlBuf, setbias, this`ip, this`port, this`calibrationIndex
      modifies this`data, this`http, this`command, this`sampleCount
      modifies this`resp, this`responseRet, this`initialized, this`cpf, this`cpt, this`rdtRate
      ensures ok == initialized && ip == address && port == DEFAULT_PORT && calibrationIndex == index
      ensures address == [] ==> !ok && data == old(data) && http == old(http) && command == STOP && sampleCount == 1
      ensures address != [] && !(old(http).canOpen && old(data).canOpen) ==>
        !ok && data == Opened(old(data)) && http == Opened(old(http)) && command == STOP && sampleCount == 1
      ensures address != [] && old(http).canOpen && old(data).canOpen ==>
        SessionStarted(Opened(old(data)), Opened(old(http)), old(xmlBuf[..]), old(response[..]), mode, count, old(Calibration()))
      ensures !(address != [] && old(http).canOpen && old(data).canOpen) ==>
        xmlBuf[..] == old(xmlBuf[..]) && Calibration() == old(Calibration())
      ensures !(address != [] && old(http).canOpen && old(data).canOpen) ==> Exchange() == old(Exchange())
    {
      initialized := true;
      ip := address;
      port := DEFAULT_PORT;
      command := STOP;
      sampleCount := 1;
      calibrationIndex := index;
      ok := Connect(address, mode, count, old(data), old(http), old(xmlBuf[..]), old(Calibration()), old(Exchange()));
    }

    /** The part of init after the parameters were reset: open the sockets when the
        address is non-empty, and start the session when both opened. The ghost
        parameters are the endpoints, the buffer, the calibration state and the
        exchange state as they stand. */
    method Connect(address: string, mode: uint16, count: int32, ghost d: Endpoint<byte>, ghost h: Endpoint<char>,
                   ghost buf: seq<char>, ghost prev: CalibrationState, ghost ex: ExchangeState) returns (ok: bool)
      requires Valid() && initialized && command == STOP && sampleCount == 1
      requires data == d && http == h && xmlBuf[..] == buf && Calibration() == prev && Exchange() == ex
      modifies request, response, xmlBuf, setbias, this`data, this`http, this`command, this`sampleCount
      modifies this`resp, this`responseRet, this`initialized, this`cpf, this`cpt, this`rdtRate
      ensures ok == initialized
      ensures address == [] ==> !ok && data == d && http == h && command == STOP && sampleCount == 1
      ensures address != [] && !(h.canOpen && d.canOpen) ==>
        !ok && data == Opened(d) && http == Opened(h) && command == STOP && sampleCount == 1
      ensures address != [] && h.canOpen && d.canOpen ==> SessionStarted(Opened(d), Opened(h), buf, ex.response, mode, count, prev)
      ensures !(address != [] && h.canOpen && d.canOpen) ==> xmlBuf[..] == buf && Calibration() == prev
      ensures !(address != [] && h.canOpen && d.canOpen) ==> Exchange() == ex
    {
      var bothOpen := false;
      if address != [] {
        bothOpen := OpenSockets();
      }
      StartSessionIf(bothOpen, mode, count, d, h, buf, ex.response, prev);
      ok := initialized;
    }

    /** init's start of the session, made only when both sockets opened (from the
        endpoints d and h before they were opened, the buffer buf and the calibration
        state prev); otherwise the flag is cleared and nothing else changes. */
    method StartSessionIf(bothOpen: bool, mode: uint16, count: int32, ghost d: Endpoint<byte>,
                          ghost h: Endpoint<char>, ghost buf: seq<char>, ghost rsp: seq<byte>,
                          ghost prev: CalibrationState)
      requires Valid() && initialized && sampleCount == 1
      requires bothOpen ==> data == Opened(d) && http == Opened(h)
      requires xmlBuf[..] == buf && response[..] == rsp && Calibration() == prev
      modifies request, response, xmlBuf, setbias, this`data, this`http, this`command, this`sampleCount
      modifies this`resp, this`responseRet, this`initialized, this`cpf, this`cpt, this`rdtRate
      ensures bothOpen ==> SessionStarted(Opened(d), Opened(h), buf, rsp, mode, count, prev)
      ensures !bothOpen ==> !initialized && data == old(data) && http == old(http)
      ensures !bothOpen ==> command == old(command) && sampleCount == old(sampleCount)
      ensures !bothOpen ==> xmlBuf[..] == old(xmlBuf[..]) && Calibration() == old(Calibration())
      ensures !bothOpen ==> Exchange() == old(Exchange())
    {
      if bothOpen {
        StartSession(mode, count);
      } else {
        initialized := false;
      }
    }

    // ------------------------------------------------------------ HTTP requests

    /** The receive loop of sendTCPrequest and getCalibrationData: recv chunks of at
        most CHUNK_SIZE bytes into xml_c_ from position 0 on, advancing by each count,
        until a count <= 0 or position MAX_RECV_SIZE. Returns the final position. */
    method ReceiveReply() returns (pos: int)
      requires Valid()
      modifies xmlBuf, this`http
      ensures var d := Drain(old(http), 0);
        http == d.0 && xmlBuf[..] == AfterDrain(old(xmlBuf[..]), d.1) && pos == d.2
    {
      ghost var h0, buf0 := http, xmlBuf[..];
      ghost var text: string := [];
      pos := 0;
      assert buf0 == Overwrite(buf0, 0, text);
      assert text + Drain(http, pos).1 == Drain(http, pos).1;
      while pos < MAX_RECV_SIZE as int
        invariant 0 <= pos == |text| && Resumes(h0, http, pos, text)
        invariant |text| < XML_BUFFER_SIZE && xmlBuf[..] == Overwrite(buf0, 0, text)
        decreases MAX_RECV_SIZE - pos
      {
        var n;
        n, text := ReceiveTurn(h0, buf0, pos, text);
        pos := pos + n;
        if n <= 0 {
          break;
        }
      }
      assert pos >= MAX_RECV_SIZE ==> text + [] == text;
    }

    /** One turn of the receive loop at pos, with text received so far since h0 and the
        buffer buf0: the loop goes on from the new position, or ends with the whole
        loop's result. */
    method ReceiveTurn(ghost h0: Endpoint<char>, ghost buf0: seq<char>, pos: int, ghost text: string)
        returns (n: int, ghost text': string)
      requires Valid() && 0 <= pos == |text| < MAX_RECV_SIZE && Resumes(h0, http, pos, text)
      requires |buf0| == XML_BUFFER_SIZE && xmlBuf[..] == Overwrite(buf0, 0, text)
      modifies xmlBuf, this`http
      ensures n <= 0 ==> Drain(h0, 0) == (http, text', pos + n)
      ensures n > 0 ==> pos + n == |text'| && Resumes(h0, http, pos + n, text')
      ensures |text'| < XML_BUFFER_SIZE && xmlBuf[..] == Overwrite(buf0, 0, text')
    {
      DrainAdvance(h0, http, pos, text);
      ghost var got;
      n, got := RecvChunkAt(pos);
      OverwriteExtend(buf0, text, got);
      text' := text + got;
    }

    /** recv(socketHTTPHandle_, &xml_c_[pos], CHUNK_SIZE): the count, and the
        characters written at pos. */
    method RecvChunkAt(pos: nat) returns (n: int, ghost got: string)
      requires Valid() && pos < MAX_RECV_SIZE
      modifies xmlBuf, this`http
      ensures n == RecvResult(old(http), CHUNK_SIZE).0 && got == RecvResult(old(http), CHUNK_SIZE).1
      ensures xmlBuf[..] == Overwrite(old(xmlBuf[..]), pos, got)
      ensures http == AfterRecv(old(http))
    {
      var r := RecvResult(http, CHUNK_SIZE);
      n, got := r.0, r.1;
      http := AfterRecv(http);
      WriteAt(pos, r.1);
    }

    /** recv's write of got into xml_c_ at pos. */
    method WriteAt(pos: nat, got: seq<char>)
      requires Valid() && pos + |got| <= XML_BUFFER_SIZE
      modifies xmlBuf
      ensures xmlBuf[..] == Overwrite(old(xmlBuf[..]), pos, got)
    {
      ghost var before := xmlBuf[..];
      for i := 0 to |got|
        invariant xmlBuf[..] == before[..pos] + got[..i] + before[pos + i..]
      {
        xmlBuf[pos + i] := got[i];
        assert got[..i + 1] == got[..i] + [got[i]];
      }
      assert got[..|got|] == got;
    }

    /** sendTCPrequest(cmd): refuse an empty command; send one HTTP/1.0 GET of it; on
        a failed send stop; otherwise run the receive loop and succeed iff more than 4
        bytes came back and the buffer starts with the redirect line. */
    method SendTcpRequest(cmd: string) returns (ok: bool)
      requires Valid()
      modifies xmlBuf, this`http
      ensures var r := TcpExchange(old(http), old(xmlBuf[..]), ip, cmd);
        ok == r.0 && http == r.1 && xmlBuf[..] == r.2
    {
      if cmd == [] {
        return false;
      }
      var request := HttpGet(cmd, "HTTP/1.0", ip);
      var sent := SendResult(http);
      http := AfterSend(http, request);
      if sent < 0 {
        return false;
      }
      var pos := ReceiveReply();
      if pos > 4 {
        ok := xmlBuf[..|REDIRECT_REPLY|] == REDIRECT_REPLY;
      } else {
        ok := false;
      }
    }

    /** setRDTOutputRate(rate): a rate outside 1..7000 is refused without a request;
        otherwise the rate page is requested, and the stored rate becomes rate exactly
        when the request succeeds. */
    method SetRDTOutputRate(rate: uint32) returns (ok: bool)
      requires Valid()
      modifies xmlBuf, this`http, this`rdtRate
      ensures !ValidRate(rate) ==> !ok && http == old(http) && xmlBuf[..] == old(xmlBuf[..]) && rdtRate == old(rdtRate)
      ensures ValidRate(rate) ==> var r := TcpExchange(old(http), old(xmlBuf[..]), ip, RateCommand(rate));
        ok == r.0 && http == r.1 && xmlBuf[..] == r.2
      ensures rdtRate == if ok then rate as int else old(rdtRate)
    {
      if 0 < rate && rate as int <= MAX_RDT_RATE {
        ok := SendTcpRequest(RateCommand(rate));
        if ok {
          rdtRate := rate as int;
        }
      } else {
        ok := false;
      }
    }

    /** setGaugeBias(map): the query of the map's entries; a key of 6 or more refuses
        the map before any request. Otherwise the setting page with that query is
        requested. */
    method SetGaugeBias(m: map<uint32, int32>) returns (ok: bool)
      requires Valid()
      modifies xmlBuf, this`http
      ensures (exists k | k in m :: k as int >= GAUGE_COUNT) ==> !ok && http == old(http) && xmlBuf[..] == old(xmlBuf[..])
      ensures (forall k | k in m :: k as int < GAUGE_COUNT) ==>
        var r := TcpExchange(old(http), old(xmlBuf[..]), ip, BiasCommand(m));
        ok == r.0 && http == r.1 && xmlBuf[..] == r.2
    {
      var valid, query := BiasQuery(m);
      if !valid {
        return false;
      }
      ok := SendTcpRequest("/setting.cgi" + query);
    }

    /** setGaugeBias(vector): element i under key i (size_t to unsigned int). */
    method SetGaugeBiasVector(v: seq<int32>) returns (ok: bool)
      requires Valid()
      modifies xmlBuf, this`http
      ensures |v| > GAUGE_COUNT ==> !ok && http == old(http) && xmlBuf[..] == old(xmlBuf[..])
      ensures |v| <= GAUGE_COUNT ==>
        var r := TcpExchange(old(http), old(xmlBuf[..]), ip, BiasCommand(VectorMap(v)));
        ok == r.0 && http == r.1 && xmlBuf[..] == r.2
    {
      var m: map<uint32, int32> := map[];
      for i := 0 to |v|
        invariant i <= 0x1_0000_0000 ==> m == VectorMap(v[..i])
        invariant forall k: uint32 | (k as int) < i :: k in m
      {
        m := m[(i % 0x1_0000_0000) as uint32 := v[i]];
        if i + 1 <= 0x1_0000_0000 {
          assert v[..i + 1] == v[..i] + [v[i]];
          assert m == VectorMap(v[..i + 1]);
        }
      }
      assert |v| <= 0x1_0000_0000 ==> v[..|v|] == v;
      if |v| > GAUGE_COUNT {
        assert (GAUGE_COUNT as uint32) in m;
      }
      ok := SetGaugeBias(m);
    }

    /** setGaugeBias(idx, bias): the one-entry map. */
    method SetGaugeBiasOne(index: uint32, bias: int32) returns (ok: bool)
      requires Valid()
      modifies xmlBuf, this`http
      ensures index as int >= GAUGE_COUNT ==> !ok && http == old(http) && xmlBuf[..] == old(xmlBuf[..])
      ensures index as int < GAUGE_COUNT ==>
        var r := TcpExchange(old(http), old(xmlBuf[..]), ip, "/setting.cgi?" + Param((index, bias)));
        ok == r.0 && http == r.1 && xmlBuf[..] == r.2
    {
      EntriesSingleton(index, bias);
      QueryHead([(index, bias)], true);
      assert [(index, bias)][1..] == [];
      assert BiasCommand(map[index := bias]) == "/setting.cgi?" + Param((index, bias));
      ok := SetGaugeBias(map[index := bias]);
    }

    /** getGaugeBias: a copy of the six stored gauge biases. */
    method GetGaugeBias() returns (bias: seq<int32>)
      requires Valid()
      ensures bias == setbias[..] && |bias| == GAUGE_COUNT
    {
      bias := setbias[..];
    }

    /** The request for the calibration page (the send's result is only logged) and
        the receive loop. */
    method FetchCalibration()
      requires Valid()
      modifies xmlBuf, this`http
      ensures var f := CalibrationFetch(old(http), old(xmlBuf[..]), ip, calibrationIndex);
        http == f.0 && xmlBuf[..] == f.1
    {
      var request := HttpGet(CalibrationPath(calibrationIndex), "HTTP/1.1", ip);
      http := AfterSend(http, request);
      var _ := ReceiveReply();
    }

    /** What getCalibrationData keeps from the page xml: cfgcpf, cfgcpt and comrdtrate
        converted, the rate always stored, the setbias list stored over the old gauge
        biases; the counts are replaced, and the result is true, only when both read
        back non-zero. */
    ghost predicate ParsedCalibration(xml: string, oldBias: seq<int32>, oldCpf: uint32, oldCpt: uint32, ok: bool)
      reads this, setbias
      requires |oldBias| == GAUGE_COUNT
    {
      && Calibrated(xml, oldBias, oldCpf, oldCpt)
      && (ok <==> toUnsigned(elementText(xml, "cfgcpf")) != 0 && toUnsigned(elementText(xml, "cfgcpt")) != 0)
    }

    ghost function Calibration(): CalibrationState
      reads this, setbias
    {
      CalibrationState(setbias[..], cpf, cpt, rdtRate)
    }

    ghost function Exchange(): ExchangeState
      reads this, request, response
    {
      ExchangeState(resp, responseRet, request[..], response[..])
    }

    /** The state getCalibrationData leaves from the page xml, whatever it returns. */
    ghost predicate Calibrated(xml: string, oldBias: seq<int32>, oldCpf: uint32, oldCpt: uint32)
      reads this, setbias
      requires |oldBias| == GAUGE_COUNT
    {
      var f, t := toUnsigned(elementText(xml, "cfgcpf")), toUnsigned(elementText(xml, "cfgcpt"));
      && rdtRate == toInt(elementText(xml, "comrdtrate")) as int
      && setbias[..] == Filled(oldBias, TokenValues(elementText(xml, "setbias"), ';', GAUGE_COUNT, toInt))
      && (f != 0 && t != 0 ==> cpf == f && cpt == t)
      && (!(f != 0 && t != 0) ==> cpf == oldCpf && cpt == oldCpt)
    }

    /** getCalibrationData, RTnet branch: fetch the calibration page into xml_c_, copy it
        up to its first NUL into xml_s_, and read the counts, the rate and the gauge
        biases from that copy. */
    method GetCalibrationData() returns (ok: bool)
      requires Valid()
      modifies xmlBuf, setbias, this`http, this`cpf, this`cpt, this`rdtRate
      ensures var f := CalibrationFetch(old(http), old(xmlBuf[..]), ip, calibrationIndex);
        http == f.0 && xmlBuf[..] == f.1
      ensures ParsedCalibration(CString(xmlBuf[..]), old(setbias[..]), old(cpf), old(cpt), ok)
    {
      FetchCalibration();
      var xml := CString(xmlBuf[..]);
      ok := ParseCalibration(xml);
    }

    /** The parsing half of getCalibrationData, on the copy xml_s_. */
    method ParseCalibration(xml: string) returns (ok: bool)
      requires Valid()
      modifies setbias, this`cpf, this`cpt, this`rdtRate
      ensures ParsedCalibration(xml, old(setbias[..]), old(cpf), old(cpt), ok)
    {
      var cpfRead := toUnsigned(elementText(xml, "cfgcpf"));
      var cptRead := toUnsigned(elementText(xml, "cfgcpt"));
      var rate := toInt(elementText(xml, "comrdtrate"));
      rdtRate := rate as int;
      var _ := GetArrayFromString(elementText(xml, "setbias"), ';', setbias, GAUGE_COUNT, toInt);
      if cpfRead != 0 && cptRead != 0 {
        cpf, cpt := cpfRead, cptRead;
        ok := true;
      } else {
        ok := false;
      }
    }

    /** setTimeout(sec): refused for sec <= 0 and once initialized; otherwise the
        timeout becomes sec split into seconds and microseconds. */
    method SetTimeout(sec: real)
      modifies this`timeout
      ensures sec <= 0.0 || initialized ==> timeout == old(timeout)
      ensures sec > 0.0 && !initialized ==> timeout == Split(sec)
    {
      if sec <= 0.0 {
        return;
      }
      var init := IsInitialized();
      if init {
        return;
      }
      timeout := Split(sec);
    }
  }
}
