/**
 * The coordinator's per-connection TCP byte buffers (robotpc/socket_client.hpp).
 *
 * `recv` and `send` are not modelled as system calls: each is a script of the
 * results successive calls return.  When a script runs out, the non-blocking
 * socket has nothing more to give or take and reports "would block".
 * `wire` is every byte `send` has accepted so far, in order, and
 * `closedSockets` every handle `closesocket` was called on.
 */
module TcpClient {
  import opened Bytes
  import opened Wrappers

  const BATCH_SIZE: int := 32 * 1024

  datatype Socket = InvalidSocket | Open(handle: nat)

  type Positive = n: int | n >= 1 witness 1

  /** One `recv` call: `Received(b)` returned `|b|` (0: the peer closed), `RecvFailed` returned -1. */
  datatype RecvResult = Received(bytes: seq<uint8>) | RecvFailed(wouldBlock: bool)

  /** One `send` call: `Accepted(n)` returned `n > 0`; `SendFailed` returned 0 or less. */
  datatype SendResult = Accepted(n: Positive) | SendFailed(wouldBlock: bool)

  /** What reading a script of `recv` results does: the bytes appended and whether it closes. */
  datatype ReadOutcome = ReadOutcome(appended: seq<uint8>, closes: bool)

  function Read(recvs: seq<RecvResult>): ReadOutcome
  {
    if recvs == [] then ReadOutcome([], false)
    else match recvs[0]
      case Received(b) =>
        if |b| > 0 then
          var rest := Read(recvs[1..]);
          ReadOutcome(b + rest.appended, rest.closes)
        else ReadOutcome([], true)
      case RecvFailed(wouldBlock) => ReadOutcome([], !wouldBlock)
  }

  /** The chunks that `recv` returns before the first failure, in order. */
  function Chunks(recvs: seq<RecvResult>): seq<seq<uint8>>
  {
    if recvs == [] || !recvs[0].Received? || |recvs[0].bytes| == 0 then []
    else [recvs[0].bytes] + Chunks(recvs[1..])
  }

  function Flatten(chunks: seq<seq<uint8>>): seq<uint8>
  {
    if chunks == [] then [] else chunks[0] + Flatten(chunks[1..])
  }

  /** Reading appends exactly the received chunks, in the order they arrived. */
  lemma {:induction false} ReadAppendsChunks(recvs: seq<RecvResult>)
    ensures Read(recvs).appended == Flatten(Chunks(recvs))
  {
    if recvs != [] && recvs[0].Received? && |recvs[0].bytes| > 0 {
      ReadAppendsChunks(recvs[1..]);
    }
  }

  function Min(a: int, b: int): int { if a < b then a else b }

  /** What sending does: how many bytes leave the buffer and whether a fatal error closes it. */
  datatype SendOutcome = SendOutcome(sent: nat, closes: bool)

  function Send(tx: seq<uint8>, batch: Positive, sends: seq<SendResult>): (r: SendOutcome)
    ensures r.sent <= |tx|
    ensures tx == [] ==> r == SendOutcome(0, false)
  {
    if tx == [] || sends == [] then SendOutcome(0, false)
    else match sends[0]
      case Accepted(n) =>
        var k := Min(n, Min(batch, |tx|));
        var rest := Send(tx[k..], batch, sends[1..]);
        SendOutcome(k + rest.sent, rest.closes)
      case SendFailed(wouldBlock) => SendOutcome(0, !wouldBlock)
  }

  class SocketClient {
    var rxBuffer: seq<uint8>
    var txBuffer: seq<uint8>
    var socket: Socket
    var alive: bool
    var wire: seq<uint8>
    var closedSockets: seq<nat>

    constructor (socket: Socket)
      ensures this.socket == socket && alive
      ensures rxBuffer == [] && txBuffer == [] && wire == [] && closedSockets == []
    {
      this.socket := socket;
      alive := true;
      rxBuffer := [];
      txBuffer := [];
      wire := [];
      closedSockets := [];
    }

    /** `close`: marks the client dead and closes an open socket once. */
    method Close()
      modifies this`alive, this`socket, this`closedSockets
      ensures !alive && socket == InvalidSocket
      ensures closedSockets == old(closedSockets) + (if old(socket).Open? then [old(socket).handle] else [])
    {
      alive := false;
      if socket != InvalidSocket {
        closedSockets := closedSockets + [socket.handle];
      }
      socket := InvalidSocket;
    }

    function IsAlive(): (r: bool)
      reads this
      ensures r == alive
    {
      alive
    }

    function RxBufferLength(): (r: nat)
      reads this
      ensures r == |rxBuffer|
    {
      |rxBuffer|
    }

    function TxBufferLength(): (r: nat)
      reads this
      ensures r == |txBuffer|
    {
      |txBuffer|
    }

    /** One `recv` call: the script's next result, or "would block" past its end. */
    static function Recv(recvs: seq<RecvResult>, i: nat): RecvResult
    {
      if i < |recvs| then recvs[i] else RecvFailed(true)
    }

    /**
     * `read_available_data`: appends every chunk `recv` returns until it fails;
     * a closed peer or an error other than would-block closes the client.
     */
    method ReadAvailableData(batch: int, recvs: seq<RecvResult>) returns (count: int)
      requires forall i | 0 <= i < |recvs| && recvs[i].Received? :: |recvs[i].bytes| <= batch
      modifies this`rxBuffer, this`alive, this`socket, this`closedSockets
      ensures rxBuffer == old(rxBuffer) + Read(recvs).appended
      ensures count == |Read(recvs).appended|
      ensures Read(recvs).closes ==> (!alive && socket == InvalidSocket &&
        closedSockets == old(closedSockets) + (if old(socket).Open? then [old(socket).handle] else []))
      ensures !Read(recvs).closes ==>
        alive == old(alive) && socket == old(socket) && closedSockets == old(closedSockets)
    {
      count := 0;
      var i := 0;
      while true
        invariant 0 <= i <= |recvs|
        invariant rxBuffer + Read(recvs[i..]).appended == old(rxBuffer) + Read(recvs).appended
        invariant Read(recvs[i..]).closes == Read(recvs).closes
        invariant count == |rxBuffer| - |old(rxBuffer)|
        invariant alive == old(alive) && socket == old(socket) && closedSockets == old(closedSockets)
        decreases |recvs| - i
      {
        var tmp := Recv(recvs, i);
        if tmp.Received? && |tmp.bytes| > 0 {
          count := count + |tmp.bytes|;
          rxBuffer := rxBuffer + tmp.bytes;
          i := i + 1;
        } else {
          if tmp.Received? {
            Close();
          } else if !tmp.wouldBlock {
            Close();
          }
          break;
        }
      }
    }

    /** `insert_tx_data`: queues bytes at the end of the transmit buffer. */
    method InsertTxData(data: seq<uint8>)
      modifies this`txBuffer
      ensures txBuffer == old(txBuffer) + data
    {
      txBuffer := txBuffer + data;
    }

    /** One `send` call: the script's next result, or "would block" past its end. */
    static function SendCall(sends: seq<SendResult>, i: nat): SendResult
    {
      if i < |sends| then sends[i] else SendFailed(true)
    }

    /**
     * `send_all_pending_data`: offers at most `batch` bytes at a time and drops
     * from the front of the buffer what `send` accepted, until the buffer is
     * empty or a send fails.
     */
    method SendAllPendingData(batch: Positive, sends: seq<SendResult>) returns (count: int)
      modifies this`txBuffer, this`wire, this`alive, this`socket, this`closedSockets
      ensures count == Send(old(txBuffer), batch, sends).sent
      ensures wire + txBuffer == old(wire) + old(txBuffer) && |wire| == |old(wire)| + count
      ensures Send(old(txBuffer), batch, sends).closes ==> (!alive && socket == InvalidSocket &&
        closedSockets == old(closedSockets) + (if old(socket).Open? then [old(socket).handle] else []))
      ensures !Send(old(txBuffer), batch, sends).closes ==>
        alive == old(alive) && socket == old(socket) && closedSockets == old(closedSockets)
    {
      if TxBufferLength() == 0 {
        return 0;
      }
      count := 0;
      var i := 0;
      ghost var total := Send(txBuffer, batch, sends);
      while TxBufferLength() > 0
        invariant i <= |sends| && 0 <= count <= total.sent
        invariant wire + txBuffer == old(wire) + old(txBuffer) && |wire| == |old(wire)| + count
        invariant Send(txBuffer, batch, sends[i..]) == SendOutcome(total.sent - count, total.closes)
        invariant alive == old(alive) && socket == old(socket) && closedSockets == old(closedSockets)
        decreases |sends| - i
      {
        var toSend := Min(batch, TxBufferLength());
        var tmp := SendCall(sends, i);
        if tmp.Accepted? {
          var accepted := Min(tmp.n, toSend);
          SendAdvances(txBuffer, batch, sends, i);
          wire := wire + txBuffer[..accepted];
          txBuffer := txBuffer[accepted..];
          count := count + accepted;
          i := i + 1;
        } else {
          SendStops(txBuffer, batch, sends[i..]);
          if !tmp.wouldBlock {
            Close();
          }
          break;
        }
      }
    }

    /** `peek_byte`: the byte at `offset` read as `int8_t`, if buffered. */
    function PeekByte(offset: nat): (r: Option<int8>)
      reads this
      ensures r.None? <==> |rxBuffer| < offset + 1
      ensures r.Some? ==> Int8ToUint8(r.value) == rxBuffer[offset]
    {
      if |rxBuffer| < 1 + offset then None else Some(Uint8ToInt8(rxBuffer[offset]))
    }

    /** `peek_int32`: the big-endian int32 at `offset`, if four bytes are buffered there. */
    function PeekInt32(offset: nat): (r: Option<int32>)
      reads this
      ensures r.None? <==> |rxBuffer| < offset + 4
      ensures r.Some? ==> Int32ToBE(r.value) == rxBuffer[offset..offset + 4]
    {
      if |rxBuffer| < 4 + offset then None
      else
        BEUint32Canonical(rxBuffer, offset);
        Some(BEToInt32(rxBuffer, offset))
    }

    /** `peek_string`: the `length` bytes from `offset`, if buffered. */
    function PeekString(length: nat, offset: nat): (r: Option<seq<uint8>>)
      reads this
      ensures r.None? <==> |rxBuffer| < offset + length
      ensures r.Some? ==> |r.value| == length && rxBuffer[offset..] == r.value + rxBuffer[offset + length..]
    {
      if |rxBuffer| < length + offset then None
      else Some(rxBuffer[offset..offset + length])
    }

    /** `remove_rx_bytes`: drops the first `bytes` bytes; the rest keep their order. */
    method RemoveRxBytes(bytes: nat)
      requires bytes <= |rxBuffer|
      modifies this`rxBuffer
      ensures old(rxBuffer) == old(rxBuffer)[..bytes] + rxBuffer
    {
      rxBuffer := rxBuffer[bytes..];
    }
  }

  /** One accepted `send` moves `min(n, batch, |tx|)` bytes and the rest follows from the remaining results. */
  lemma SendStep(tx: seq<uint8>, batch: Positive, sends: seq<SendResult>)
    requires tx != [] && sends != [] && sends[0].Accepted?
    ensures var k := Min(sends[0].n, Min(batch, |tx|));
      1 <= k <= |tx| &&
      Send(tx, batch, sends) == SendOutcome(k + Send(tx[k..], batch, sends[1..]).sent, Send(tx[k..], batch, sends[1..]).closes)
  {
  }

  /** A failed or missing `send` ends the sending: a fatal failure closes. */
  lemma SendStops(tx: seq<uint8>, batch: Positive, sends: seq<SendResult>)
    requires sends == [] || sends[0].SendFailed?
    ensures Send(tx, batch, sends) == SendOutcome(0, sends != [] && !sends[0].wouldBlock && tx != [])
  {
  }

  /** The loop step of `SendAllPendingData`: one accepted `send` moves a prefix of the buffer. */
  lemma SendAdvances(tx: seq<uint8>, batch: Positive, sends: seq<SendResult>, i: nat)
    requires tx != [] && i < |sends| && sends[i].Accepted?
    ensures var k := Min(sends[i].n, Min(batch, |tx|));
      Send(tx, batch, sends[i..]) == SendOutcome(k + Send(tx[k..], batch, sends[i + 1..]).sent, Send(tx[k..], batch, sends[i + 1..]).closes) &&
      tx[..k] + tx[k..] == tx
  {
    SendStep(tx, batch, sends[i..]);
    assert sends[i..][1..] == sends[i + 1..];
  }

  /** When every send is accepted in full, the whole buffer leaves in `ceil(|tx| / batch)` calls. */
  lemma {:induction false} SendAllAccepted(tx: seq<uint8>, batch: Positive, sends: seq<SendResult>)
    requires |sends| * batch >= |tx|
    requires forall i | 0 <= i < |sends| :: sends[i].Accepted? && sends[i].n >= batch
    ensures Send(tx, batch, sends) == SendOutcome(|tx|, false)
  {
    if tx != [] {
      var k := Min(batch, |tx|);
      assert sends[0].Accepted?;
      SendAllAccepted(tx[k..], batch, sends[1..]);
    }
  }
}
