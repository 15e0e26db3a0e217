/** The send queue of a reply and the chunked encoder (cc_http/cc_http_client_reply.c), with nothing
    written to the socket yet. */
module HttpReply {
  import opened Sequences
  import opened HttpChars
  import opened HttpArms
  import opened HttpBytewise
  import opened HttpRun
  import opened Digits
  import opened HttpChunked
  import Number

  /** cc_buffer_t */
  class Buffer {
    const data: array<Byte>
    var size: nat

    constructor (capacity: nat)
      ensures fresh(this) && fresh(data) && data.Length == capacity && size == 0
    {
      data, size := new Byte[capacity], 0;
    }
  }

  /** cc_send_data_node_t: the bytes of a shared buffer from offset to size */
  datatype SendNode = SendNode(buffer: Buffer, offset: nat, size: nat, flag: bool)

  ghost function NodeBytes(node: SendNode): seq<Byte>
    reads node.buffer.data
  {
    if node.offset <= node.size <= node.buffer.data.Length then node.buffer.data[node.offset..node.size] else []
  }

  /** The bytes that the nodes stand for, first node first. */
  ghost function Bytes(nodes: seq<SendNode>): seq<Byte>
    reads set n | n in nodes :: n.buffer.data
  {
    if nodes == [] then [] else Bytes(nodes[..|nodes| - 1]) + NodeBytes(nodes[|nodes| - 1])
  }

  lemma BytesAppend(nodes: seq<SendNode>, n: SendNode)
    ensures Bytes(nodes + [n]) == Bytes(nodes) + NodeBytes(n)
  {
    assert (nodes + [n])[..|nodes|] == nodes;
  }

  /** The queued bytes change only with the contents of the buffers. */
  twostate lemma {:induction false} BytesUnchanged(nodes: seq<SendNode>)
    requires forall n :: n in nodes ==> unchanged(n.buffer.data)
    ensures Bytes(nodes) == old(Bytes(nodes))
    decreases |nodes|
  {
    if nodes != [] {
      BytesUnchanged(nodes[..|nodes| - 1]);
      assert nodes[|nodes| - 1] in nodes;
    }
  }

  /** The parts of a request context that the encoder uses. */
  class HttpContext {
    var headerBuffer: Buffer?
    var bodyBuffer: Buffer?
    var replyBody: Buffer?
    var queue: seq<SendNode>

    constructor ()
      ensures queue == [] && headerBuffer == null && bodyBuffer == null && replyBody == null
    {
      headerBuffer, bodyBuffer, replyBody, queue := null, null, null, [];
    }

    /** The pointer at in block lies in buffer b. */
    predicate Inside(b: Buffer?, block: array<Byte>, at: nat)
      reads b
    {
      b != null && b.data == block && at < b.size
    }

    /** The buffer of the context that holds the pointer, the first one if there are several. */
    function Owner(block: array<Byte>, at: nat): Buffer?
      reads this, headerBuffer, bodyBuffer, replyBody
    {
      if Inside(headerBuffer, block, at) then headerBuffer
      else if Inside(bodyBuffer, block, at) then bodyBuffer
      else if Inside(replyBody, block, at) then replyBody
      else null
    }

    /** Some buffer of the context holds the byte. */
    ghost predicate Held(block: array<Byte>, at: nat)
      reads this, headerBuffer, bodyBuffer, replyBody
    {
      exists b: Buffer :: b in {headerBuffer, bodyBuffer, replyBody} && b.data == block && at < b.size
    }

    /** What is queued for sending. */
    ghost function Contents(): seq<Byte>
      reads this, set n | n in queue :: n.buffer.data
    {
      Bytes(queue)
    }

    method Enqueue(node: SendNode)
      modifies this`queue
      ensures queue == old(queue) + [node] && Contents() == old(Contents()) + NodeBytes(node)
    {
      hide Bytes, NodeBytes;
      BytesAppend(queue, node);
      ghost var nodes := queue + [node];
      queue := queue + [node];
      BytesUnchanged(nodes);
    }

    /** The node of a chunk size: "%x%V" printed into a buffer of 32, less the two bytes of "0x". */
    method SizeNode(n: Number.U64) returns (node: SendNode)
      ensures fresh(node.buffer) && fresh(node.buffer.data) && NodeBytes(node) == Numeral(n as nat, 16, false) + CRLF
    {
      hide Numeral, Number.Text, Number.Padded, Number.Spliced;
      var b := new Buffer(32);
      ghost var a0, text := b.data[..], Number.Text(n as nat, 1, false);
      SizeText(n);
      Number.EnoughRoom(text, SPACE, false, 32);
      var end := Number.SprintfNum(b.data, 0, 32, n, SPACE, 1, 0, false, false);
      ghost var a1 := b.data[..];
      end := PutString(b.data, end, 32, CRLF);
      Number.SplicedThen(a0, a1, b.data[..], 0, text, CRLF);
      Number.SplicedPart(a0, b.data[..], 0, text + CRLF);
      assert b.data[..][0..end] == text + CRLF;
      BehindPrefix(b.data[..], end, Numeral(n as nat, 16, false));
      b.size := end;
      node := SendNode(b, 2, b.size, false);
    }

    /** A node of a few constant bytes printed into a buffer of 8. */
    method TextNode(text: seq<Byte>, flag: bool) returns (node: SendNode)
      requires |text| <= 8
      ensures fresh(node.buffer) && fresh(node.buffer.data) && NodeBytes(node) == text && node.flag == flag
    {
      var b := new Buffer(8);
      ghost var a0 := b.data[..];
      b.size := PutString(b.data, 0, 8, text);
      Number.SplicedPart(a0, b.data[..], 0, text);
      assert b.data[..][0..b.size] == text;
      node := SendNode(b, 0, b.size, flag);
    }

    method EnqueueSize(n: Number.U64)
      modifies this`queue
      ensures Contents() == old(Contents()) + (Numeral(n as nat, 16, false) + CRLF)
    {
      hide Bytes, NodeBytes, Numeral;
      var node := SizeNode(n);
      BytesUnchanged(queue);
      Enqueue(node);
    }

    method EnqueueText(text: seq<Byte>, flag: bool)
      requires |text| <= 8
      modifies this`queue
      ensures Contents() == old(Contents()) + text && |queue| > 0 && queue[|queue| - 1].flag == flag
    {
      hide Bytes, NodeBytes;
      var node := TextNode(text, flag);
      BytesUnchanged(queue);
      Enqueue(node);
    }

    /** cc_http_client_start_send_chunked_body: a size line, the data if a buffer of the context holds
        its first byte, and a line end. */
    method SendChunkedBody(block: array<Byte>, at: nat, n: nat)
      requires n < 0x1_0000_0000_0000_0000 && at + n <= block.Length
      modifies this`queue
      ensures n == 0 ==> queue == old(queue) && Contents() == old(Contents())
      ensures n > 0 ==> Contents() == old(Contents()) + QueuedChunk(block[at..at + n], Held(block, at))
    {
      hide Numeral, Bytes;
      if n > 0 {
        ghost var before := Contents();
        EnqueueSize(n as Number.U64);
        ghost var piece: seq<Byte> := [];
        var owner := Owner(block, at);
        assert (owner != null) == Held(block, at);
        if owner != null {
          piece := block[at..at + n];
          Enqueue(SendNode(owner, at, at + n, false));
        }
        Regroup(before, Numeral(n, 16, false) + CRLF, piece, CRLF);
        assert Contents() == before + (Numeral(n, 16, false) + CRLF) + piece;
        EnqueueText(CRLF, false);
        assert [] + CRLF == CRLF;
      }
    }

    /** One chunk is queued; the decoder reads it back as the chunk if and only if a buffer of the context
        holds its data. */
    method SendForReading(block: array<Byte>, at: nat, n: nat) returns (ghost sent: seq<Byte>)
      requires 0 < n <= MAX_CHUNK && at + n <= block.Length
      modifies this`queue
      ensures Contents() == old(Contents()) + sent
      ensures forall p :: Ready(p, 0) && p.state == ChunkSizeStart ==>
                (Run(p, 0, sent).events == ChunkEvents(block[at..at + n]) <==> Held(block, at))
    {
      hide Run, Ready, QueuedChunk, ChunkEvents, Bytes;
      SendChunkedBody(block, at, n);
      ghost var held := Held(block, at);
      sent := QueuedChunk(block[at..at + n], held);
      forall p | Ready(p, 0) && p.state == ChunkSizeStart
        ensures Run(p, 0, sent).events == ChunkEvents(block[at..at + n]) <==> held
      {
        ReadBackIffHeld(p, block[at..at + n], held);
      }
    }

    /** cc_http_client_start_send_last_chunked */
    method SendLastChunked()
      modifies this`queue
      ensures Contents() == old(Contents()) + LAST_CHUNK && |queue| > 0 && queue[|queue| - 1].flag
    {
      EnqueueText(LAST_CHUNK, true);
    }
  }

  /** A body to send as chunks: n bytes of a block of memory each. */
  datatype Part = Part(block: array<Byte>, at: nat, n: nat)

  /** What the parts hold; an empty part is no chunk. */
  ghost function Pieces(parts: seq<Part>): seq<seq<Byte>>
    requires forall k :: 0 <= k < |parts| ==> parts[k].at + parts[k].n <= parts[k].block.Length
    reads set k | 0 <= k < |parts| :: parts[k].block
  {
    if parts == [] then []
    else
      var e, r := Front(parts), Last(parts);
      Pieces(e) + if r.n == 0 then [] else [r.block[r.at..r.at + r.n]]
  }

  /** Any list of parts that buffers of the context hold, and the last chunk: the queue grows by the coding of
      the pieces, and the decoder delivers their concatenation. */
  method SendBody(c: HttpContext, parts: seq<Part>)
    requires forall k :: 0 <= k < |parts| ==> parts[k].at + parts[k].n <= parts[k].block.Length
    requires forall k :: 0 <= k < |parts| ==> parts[k].n <= MAX_CHUNK
    requires forall k :: 0 <= k < |parts| && parts[k].n > 0 ==> c.Held(parts[k].block, parts[k].at)
    modifies c`queue
    ensures c.Contents() == old(c.Contents()) + (Encode(Pieces(parts)) + LAST_CHUNK)
    ensures forall p :: Ready(p, 0) && p.state == ChunkSizeStart ==>
              Body(Run(p, 0, Encode(Pieces(parts)) + LAST_CHUNK).events) == Concat(Pieces(parts))
  {
    hide Run, Ready, Encode, EncodeChunk, Pieces, Bytes, Body;
    ghost var before := c.Contents();
    NoPieces(parts);
    assert before + [] == before;
    for k := 0 to |parts|
      invariant c.Contents() == before + Encode(Pieces(parts[..k]))
      invariant Sendable(Pieces(parts[..k]))
    {
      var r := parts[k];
      OnePiece(parts, k);
      c.SendChunkedBody(r.block, r.at, r.n);
    }
    assert parts[..|parts|] == parts;
    c.SendLastChunked();
    assert before + Encode(Pieces(parts)) + LAST_CHUNK == before + (Encode(Pieces(parts)) + LAST_CHUNK);
    forall p | Ready(p, 0) && p.state == ChunkSizeStart
      ensures Body(Run(p, 0, Encode(Pieces(parts)) + LAST_CHUNK).events) == Concat(Pieces(parts))
    {
      DeliversPieces(p, Pieces(parts));
    }
  }

  lemma NoPieces(parts: seq<Part>)
    requires forall k :: 0 <= k < |parts| ==> parts[k].at + parts[k].n <= parts[k].block.Length
    ensures Pieces(parts[..0]) == [] && Encode([]) == []
  {}

  lemma OnePiece(parts: seq<Part>, k: nat)
    requires forall i :: 0 <= i < |parts| ==> parts[i].at + parts[i].n <= parts[i].block.Length
    requires k < |parts| && parts[k].n <= MAX_CHUNK && Sendable(Pieces(parts[..k]))
    ensures var r, e, f := parts[k], Pieces(parts[..k]), Pieces(parts[..k + 1]);
      if r.n == 0 then f == e
      else f == e + [r.block[r.at..r.at + r.n]] && Encode(f) == Encode(e) + QueuedChunk(r.block[r.at..r.at + r.n], true)
    ensures Sendable(Pieces(parts[..k + 1]))
  {
    hide Pieces, Encode, EncodeChunk;
    NextPiece(parts, k);
    var e, r := Pieces(parts[..k]), parts[k];
    if r.n > 0 {
      EncodeNext(e, r.block[r.at..r.at + r.n]);
    }
  }

  lemma NextPiece(parts: seq<Part>, k: nat)
    requires forall i :: 0 <= i < |parts| ==> parts[i].at + parts[i].n <= parts[i].block.Length
    requires k < |parts|
    ensures var r, e := parts[k], Pieces(parts[..k]);
      Pieces(parts[..k + 1]) == if r.n == 0 then e else e + [r.block[r.at..r.at + r.n]]
  {
    var s := parts[..k + 1];
    assert Front(s) == parts[..k] && Last(s) == parts[k];
  }

  lemma EncodeNext(e: seq<seq<Byte>>, piece: seq<Byte>)
    ensures Encode(e + [piece]) == Encode(e) + EncodeChunk(piece)
  {
    hide EncodeChunk;
    var f := e + [piece];
    assert Front(f) == e && Last(f) == piece;
  }

  lemma Regroup(a: seq<Byte>, b: seq<Byte>, c: seq<Byte>, d: seq<Byte>)
    ensures a + b + c + d == a + (b + (c + d))
  {}

  lemma BehindPrefix(a: seq<Byte>, end: nat, d: seq<Byte>)
    requires 2 <= end <= |a| && a[0..end] == [48, 120] + d + CRLF
    ensures a[2..end] == d + CRLF
  {
    assert a[2..end] == a[0..end][2..];
  }

  lemma SizeText(n: Number.U64)
    ensures Number.Text(n as nat, 1, false) == [48, 120] + Numeral(n as nat, 16, false)
    ensures |Number.Text(n as nat, 1, false)| <= 18
  {
    hide Numeral;
    Number.Widths(n);
    assert [] + [48, 120] + Numeral(n as nat, 16, false) == [48, 120] + Numeral(n as nat, 16, false);
  }

  /** The directive %V: as much of text as fits. */
  method PutString(out: array<Byte>, buf: nat, last: nat, text: seq<Byte>) returns (end: nat)
    requires buf <= last <= out.Length
    modifies out
    ensures end == buf + Number.Least(last - buf, |text|)
    ensures Number.Spliced(old(out[..]), out[..], buf, text[..end - buf])
    ensures |text| <= last - buf ==> text[..end - buf] == text
  {
    var len := Number.Least(last - buf, |text|);
    forall i | 0 <= i < len {
      out[buf + i] := text[i];
    }
    end := buf + len;
  }
}
