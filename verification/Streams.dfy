/**
 The byte streams of internal/storage/service.go: what an upload stream carries, and how a file is sent back. Streams
 are finite sequences of messages.
 */
module Streams {
  import opened Prelude

  type Byte = b: int | 0 <= b < 256

  const BUFFER_SIZE := 131072

  datatype Locator = Locator(bucket: string, object_: string)

  datatype Header = Header(segmentId: string, locator: Option<Locator>, attributes: map<string, string>,
                           s3Bucket: string, s3Key: string)

  datatype Message = HeaderMsg(header: Option<Header>) | Chunk(data: seq<Byte>) | Commit(flag: bool)

  /** A client stream: the messages it delivers, then EOF or an error. */
  datatype Stream = Stream(messages: seq<Message>, broken: Option<string>)

  // ---------- Payload ----------

  predicate Commits(messages: seq<Message>) {
    exists i :: 0 <= i < |messages| && messages[i] == Commit(true)
  }

  /** The chunks before the first commit, joined. */
  function Payload(messages: seq<Message>): seq<Byte>
    decreases |messages|
  {
    if messages == [] then []
    else
      match messages[0]
      case Chunk(data) => data + Payload(messages[1..])
      case Commit(true) => []
      case _ => Payload(messages[1..])
  }

  method Assemble(messages: seq<Message>, broken: Option<string>) returns (r: Result<seq<Byte>, string>)
    ensures r == if !Commits(messages) && broken.Some? then Err(broken.value) else Ok(Payload(messages))
  {
    var payload: seq<Byte> := [];
    var i := 0;
    while i < |messages|
      invariant 0 <= i <= |messages|
      invariant Payload(messages) == payload + Payload(messages[i..])
      invariant forall j :: 0 <= j < i ==> messages[j] != Commit(true)
    {
      assert messages[i..][1..] == messages[i + 1..];
      var msg := messages[i];
      if msg.Chunk? && |msg.data| > 0 {
        payload := payload + msg.data;
      }
      if msg.Commit? && msg.flag {
        assert messages[i..][0] == Commit(true);
        assert Payload(messages[i..]) == [] && messages[i] == Commit(true);
        assert Commits(messages) && payload + [] == payload;
        return Ok(payload);
      }
      i := i + 1;
    }
    assert messages[i..] == [] && payload + [] == payload;
    if broken.Some? {
      return Err(broken.value);
    }
    return Ok(payload);
  }

  /**
   The payload of a sequence of messages, piece by piece: a chunk gives its bytes and nothing else gives any; pieces
   without a commit are joined in order, and nothing counts after a commit. These laws leave no other payload.
   */
  lemma {:induction false} PayloadLaws(a: seq<Message>, b: seq<Message>, msg: Message)
    ensures Payload([]) == [] && Payload([msg]) == if msg.Chunk? then msg.data else []
    ensures Payload(a + b) ==
            if forall i :: 0 <= i < |a| ==> a[i] != Commit(true) then Payload(a) + Payload(b) else Payload(a)
    decreases |a|
  {
    assert [msg][1..] == [];
    if a == [] {
      assert a + b == b;
    } else {
      PayloadLaws(a[1..], b, msg);
      assert (a + b)[1..] == a[1..] + b;
      assert (forall i :: 0 <= i < |a| ==> a[i] != Commit(true)) <==>
             a[0] != Commit(true) && forall i :: 0 <= i < |a[1..]| ==> a[1..][i] != Commit(true) by {
        assert forall i :: 1 <= i < |a| ==> a[i] == a[1..][i - 1];
      }
    }
  }

  function Flatten(chunks: seq<seq<Byte>>): seq<Byte> {
    if chunks == [] then [] else Flatten(chunks[..|chunks| - 1]) + chunks[|chunks| - 1]
  }

  function Chunks(chunks: seq<seq<Byte>>): seq<Message> {
    seq(|chunks|, i requires 0 <= i < |chunks| => Chunk(chunks[i]))
  }

  /** However the bytes are split into chunks, and whatever follows the commit, the payload is the bytes. */
  lemma {:induction false} PayloadOfChunks(chunks: seq<seq<Byte>>, rest: seq<Message>)
    requires rest == [] || rest[0] == Commit(true)
    ensures Payload(Chunks(chunks) + rest) == Flatten(chunks)
    decreases |chunks|
  {
    if chunks != [] {
      assert (Chunks(chunks) + rest)[1..] == Chunks(chunks[1..]) + rest;
      PayloadOfChunks(chunks[1..], rest);
      FlattenHead(chunks);
    }
  }

  lemma {:induction false} FlattenHead(chunks: seq<seq<Byte>>)
    requires chunks != []
    ensures Flatten(chunks) == chunks[0] + Flatten(chunks[1..])
  {
    if |chunks| > 1 {
      FlattenHead(chunks[..|chunks| - 1]);
      assert chunks[..|chunks| - 1][1..] == chunks[1..][..|chunks| - 2];
    } else {
      assert chunks[..0] == [] && chunks[1..] == [];
    }
  }

  // ---------- Uploads ----------

  datatype Opened = Opened(header: Header, locator: Locator, data: seq<Byte>)

  /** What a well-formed upload stream carries; None when it fails before anything is stored. */
  function Opening(stream: Stream): Option<Opened> {
    if stream.messages == [] then None
    else
      match stream.messages[0]
      case HeaderMsg(Some(h)) =>
        if h.locator.None? || h.segmentId == "" then None
        else if !Commits(stream.messages[1..]) && stream.broken.Some? then None
        else Some(Opened(h, h.locator.value, Payload(stream.messages[1..])))
      case _ => None
  }

  /** The stream broke, and no commit came before that. */
  predicate BreaksFirst(stream: Stream) {
    stream.broken.Some? && forall i :: 1 <= i < |stream.messages| ==> stream.messages[i] != Commit(true)
  }

  /**
   An upload is accepted iff its first message is a header with a locator and a segment ID, and the stream does not
   break before a commit; it then carries that header, its locator and the payload of the other messages.
   */
  lemma OpeningMeans(stream: Stream)
    ensures Opening(stream).Some? <==>
            && stream.messages != [] && stream.messages[0].HeaderMsg? && stream.messages[0].header.Some?
            && stream.messages[0].header.value.locator.Some? && stream.messages[0].header.value.segmentId != ""
            && !BreaksFirst(stream)
    ensures Opening(stream).Some? ==>
              var open := Opening(stream).value;
              && open.header == stream.messages[0].header.value && Some(open.locator) == open.header.locator
              && open.data == Payload(stream.messages[1..])
  {
    if stream.messages != [] {
      var rest := stream.messages[1..];
      assert forall i :: 1 <= i < |stream.messages| ==> stream.messages[i] == rest[i - 1];
      assert Commits(rest) <==> exists i :: 1 <= i < |stream.messages| && stream.messages[i] == Commit(true) by {
        if i :| 0 <= i < |rest| && rest[i] == Commit(true) { assert stream.messages[i + 1] == Commit(true); }
      }
    }
  }

  /** A header, then chunks, then a commit with anything behind it, or EOF. */
  lemma OpeningOfChunks(stream: Stream, h: Header, chunks: seq<seq<Byte>>, rest: seq<Message>)
    requires h.locator.Some? && h.segmentId != "" && stream.messages == [HeaderMsg(Some(h))] + Chunks(chunks) + rest
    requires if rest == [] then stream.broken.None? else rest[0] == Commit(true)
    ensures Opening(stream) == Some(Opened(h, h.locator.value, Flatten(chunks)))
  {
    var body := Chunks(chunks) + rest;
    assert stream.messages[1..] == body;
    if rest != [] { assert body[|chunks|] == Commit(true); }
    PayloadOfChunks(chunks, rest);
  }

  // ---------- Downloads ----------

  datatype ReadStatus = More | Eof | Failure

  /** One answer of the file reader: how many bytes it delivered, and whether it ended. */
  datatype ReadResult = ReadResult(n: nat, status: ReadStatus)

  datatype Response = ChunkMsg(chunk: seq<Byte>) | EofMsg

  /**
   Answers to reads of `data` from `pos` on: each fits the buffer and the file, one ends the reading, and EOF comes only
   at the very end.
   */
  ghost predicate ReadsFile(data: seq<Byte>, pos: nat, answers: seq<ReadResult>)
    decreases |answers|
  {
    && answers != [] && pos + answers[0].n <= |data| && answers[0].n <= BUFFER_SIZE
    && match answers[0].status
       case More => ReadsFile(data, pos + answers[0].n, answers[1..])
       case Eof => pos + answers[0].n == |data|
       case Failure => true
  }

  /** The answer that ends the reading is EOF. */
  predicate EndsWell(answers: seq<ReadResult>)
    decreases |answers|
  {
    answers != [] &&
    match answers[0].status
    case More => EndsWell(answers[1..])
    case Eof => true
    case Failure => false
  }

  lemma NextRead(data: seq<Byte>, pos: nat, answers: seq<ReadResult>, i: nat)
    requires i < |answers| && ReadsFile(data, pos, answers[i..])
    ensures pos + answers[i].n <= |data| && answers[i].n <= BUFFER_SIZE
    ensures answers[i].status == More ==> i + 1 < |answers| && ReadsFile(data, pos + answers[i].n, answers[i + 1..])
    ensures answers[i].status == Eof ==> pos + answers[i].n == |data|
    ensures EndsWell(answers[i..]) <==>
            answers[i].status == Eof || (answers[i].status == More && EndsWell(answers[i + 1..]))
  {
    assert answers[i..][0] == answers[i] && answers[i..][1..] == answers[i + 1..];
  }

  ghost predicate ChunksOnly(sent: seq<Response>) {
    forall i :: 0 <= i < |sent| ==> sent[i].ChunkMsg? && 0 < |sent[i].chunk| <= BUFFER_SIZE
  }

  function Received(sent: seq<Response>): seq<Byte> {
    if sent == [] then []
    else
      var last := sent[|sent| - 1];
      Received(sent[..|sent| - 1]) + if last.ChunkMsg? then last.chunk else []
  }

  lemma ReceivedAppend(sent: seq<Response>, r: Response)
    ensures Received(sent + [r]) == Received(sent) + if r.ChunkMsg? then r.chunk else []
  {
    assert (sent + [r])[..|sent|] == sent;
  }

  /** What has been sent so far: the first `pos` bytes of the file, in well-sized chunks. */
  ghost predicate SentUpTo(data: seq<Byte>, pos: nat, sent: seq<Response>) {
    pos <= |data| && ChunksOnly(sent) && Received(sent) == data[..pos]
  }

  lemma SentOneMore(data: seq<Byte>, pos: nat, sent: seq<Response>, chunk: seq<Byte>)
    requires 0 < |chunk| <= BUFFER_SIZE && pos + |chunk| <= |data| && chunk == data[pos..pos + |chunk|]
    requires SentUpTo(data, pos, sent)
    ensures SentUpTo(data, pos + |chunk|, sent + [ChunkMsg(chunk)])
  {
    ReceivedAppend(sent, ChunkMsg(chunk));
    assert data[..pos] + chunk == data[..pos + |chunk|];
  }

  /** Fills the front of the reused buffer from the file and copies it out. */
  method ReadInto(buf: array<Byte>, data: seq<Byte>, pos: nat, n: nat) returns (chunk: seq<Byte>)
    requires n <= buf.Length && pos + n <= |data|
    modifies buf
    ensures chunk == data[pos..pos + n]
  {
    var k := 0;
    while k < n
      invariant 0 <= k <= n && buf[..k] == data[pos..pos + k]
    {
      buf[k] := data[pos + k];
      k := k + 1;
    }
    return buf[..n];
  }

  /** Non-empty chunks of at most the buffer's size, then one EOF message exactly when there was no error. */
  ghost predicate SentWell(data: seq<Byte>, sent: seq<Response>, err: Option<string>) {
    if err.Some? then ChunksOnly(sent) && Received(sent) <= data
    else
      && sent != [] && sent[|sent| - 1] == EofMsg && ChunksOnly(sent[..|sent| - 1])
      && Received(sent) == data
  }

  lemma SentAll(data: seq<Byte>, sent: seq<Response>)
    requires SentUpTo(data, |data|, sent)
    ensures SentWell(data, sent + [EofMsg], None)
  {
    assert data[..|data|] == data;
    ReceivedAppend(sent, EofMsg);
    assert (sent + [EofMsg])[..|sent|] == sent;
  }

  /** One read of `n` bytes, sent on unless it is empty. */
  method SendNext(buf: array<Byte>, data: seq<Byte>, pos: nat, n: nat, sent: seq<Response>)
    returns (more: seq<Response>)
    requires n <= buf.Length <= BUFFER_SIZE && pos + n <= |data| && SentUpTo(data, pos, sent)
    modifies buf
    ensures SentUpTo(data, pos + n, more)
  {
    var chunk := ReadInto(buf, data, pos, n);
    if n > 0 {
      SentOneMore(data, pos, sent, chunk);
      return sent + [ChunkMsg(chunk)];
    }
    return sent;
  }

  /** The read loop of GetSegment over the open file. */
  method Transmit(data: seq<Byte>, answers: seq<ReadResult>) returns (sent: seq<Response>, err: Option<string>)
    requires ReadsFile(data, 0, answers)
    ensures SentWell(data, sent, err) && (err.None? <==> EndsWell(answers))
    ensures forall i :: 0 <= i < |sent| && sent[i].ChunkMsg? ==> 0 < |sent[i].chunk| <= 131072
    ensures forall i :: 0 <= i < |sent| ==> (sent[i].EofMsg? <==> err.None? && i == |sent| - 1)
  {
    var buf := new Byte[BUFFER_SIZE](_ => 0);
    var pos: nat, i: nat := 0, 0;
    sent := [];
    while true
      invariant i < |answers| && ReadsFile(data, pos, answers[i..]) && SentUpTo(data, pos, sent)
      invariant EndsWell(answers) <==> EndsWell(answers[i..])
      decreases |answers| - i
    {
      NextRead(data, pos, answers, i);
      var n, status := answers[i].n, answers[i].status;
      sent := SendNext(buf, data, pos, n, sent);
      pos := pos + n;
      if status == Eof {
        SentAll(data, sent);
        return sent + [EofMsg], None;
      }
      if status == Failure {
        return sent, Some("read failed");
      }
      i := i + 1;
    }
  }
}
