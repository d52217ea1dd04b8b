// The socket layer the driver talks through, reduced to what the driver can observe:
// whether a socket could be created, and what successive send/recv calls return.
// An endpoint is a scripted peer; it also records every call made on it.

module Transport {

  /** What one recv call hands back: some bytes (possibly none, which is end of
      stream on a TCP socket) or an error (a timeout, a reset, ...). */
  datatype Reception<T> = Received(bytes: seq<T>) | Failed

  /** One socket handle and the peer behind it.
      - canOpen: whether the next socket() call succeeds;
      - open: the handle is valid (not -1);
      - sendReplies / recvReplies: what the next send / recv calls return;
      - sent: every payload handed to send, in order;
      - recvCalls: how many times recv was called. */
  datatype Endpoint<T> = Endpoint(
    canOpen: bool,
    open: bool,
    sendReplies: seq<int>,
    recvReplies: seq<Reception<T>>,
    sent: seq<seq<T>>,
    recvCalls: nat)

  /** openSocket: any previous handle is closed, then a new socket is created;
      the handle is valid iff creation succeeded. */
  function Opened<T>(e: Endpoint<T>): (r: Endpoint<T>)
    ensures r.open == e.canOpen && r.canOpen == e.canOpen
    ensures r.sendReplies == e.sendReplies && r.recvReplies == e.recvReplies
    ensures r.sent == e.sent && r.recvCalls == e.recvCalls
  {
    e.(open := e.canOpen)
  }

  /** What send returns: the scripted value on a valid handle, -1 otherwise
      (and once the script is exhausted). */
  function SendResult<T>(e: Endpoint<T>): (n: int)
    ensures !e.open ==> n == -1
    ensures e.open && e.sendReplies != [] ==> n == e.sendReplies[0]
  {
    if e.open && e.sendReplies != [] then e.sendReplies[0] else -1
  }

  /** The endpoint after one send of `payload`: the call is logged and, on a valid
      handle, one scripted reply is used up. */
  function AfterSend<T>(e: Endpoint<T>, payload: seq<T>): (r: Endpoint<T>)
    ensures r.sent == e.sent + [payload] && r.recvReplies == e.recvReplies && r.recvCalls == e.recvCalls
    ensures r.open == e.open && r.canOpen == e.canOpen
    ensures r.sendReplies == if e.open && e.sendReplies != [] then e.sendReplies[1..] else e.sendReplies
  {
    var rest := if e.open && e.sendReplies != [] then e.sendReplies[1..] else e.sendReplies;
    e.(sent := e.sent + [payload], sendReplies := rest)
  }

  /** What recv(handle, buf, max) returns: the count n and the bytes written to buf.
      A delivery longer than max is cut to max; on an invalid handle, an error or an
      exhausted script the call returns -1 and writes nothing. */
  function RecvResult<T>(e: Endpoint<T>, max: nat): (r: (int, seq<T>))
    ensures (r.0 == -1 && r.1 == []) || 0 <= r.0 == |r.1| <= max
    ensures (!e.open || e.recvReplies == []) ==> r.0 == -1
    ensures e.open && e.recvReplies != [] && e.recvReplies[0].Received? ==>
      r.1 == e.recvReplies[0].bytes[..if |e.recvReplies[0].bytes| <= max then |e.recvReplies[0].bytes| else max]
  {
    if !e.open || e.recvReplies == [] then (-1, [])
    else match e.recvReplies[0]
      case Failed => (-1, [])
      case Received(b) =>
        var got := if |b| <= max then b else b[..max];
        (|got|, got)
  }

  /** The endpoint after one recv call: the call is counted and, on a valid handle,
      one scripted delivery is used up. */
  function AfterRecv<T>(e: Endpoint<T>): (r: Endpoint<T>)
    ensures r.recvCalls == e.recvCalls + 1 && r.sent == e.sent && r.sendReplies == e.sendReplies
    ensures r.open == e.open && r.canOpen == e.canOpen
    ensures r.recvReplies == if e.open && e.recvReplies != [] then e.recvReplies[1..] else e.recvReplies
  {
    var rest := if e.open && e.recvReplies != [] then e.recvReplies[1..] else e.recvReplies;
    e.(recvReplies := rest, recvCalls := e.recvCalls + 1)
  }

  /** buf with got written at pos; the rest of buf is untouched. */
  function Overwrite<T>(buf: seq<T>, pos: nat, got: seq<T>): (r: seq<T>)
    requires pos + |got| <= |buf|
    ensures |r| == |buf| && r[pos..pos + |got|] == got
    ensures r[..pos] == buf[..pos] && r[pos + |got|..] == buf[pos + |got|..]
  {
    buf[..pos] + got + buf[pos + |got|..]
  }

  /** Writing t at 0 and then g right after it is writing t + g at 0. */
  lemma OverwriteExtend<T>(buf: seq<T>, t: seq<T>, g: seq<T>)
    requires |t| + |g| <= |buf|
    ensures Overwrite(Overwrite(buf, 0, t), |t|, g) == Overwrite(buf, 0, t + g)
  {
    var a := Overwrite(Overwrite(buf, 0, t), |t|, g);
    var b := Overwrite(buf, 0, t + g);
    assert forall i | 0 <= i < |buf| :: a[i] == b[i];
  }
}
