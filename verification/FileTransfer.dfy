/**
 Sending a file to the server in Base64 parts (FileUploader.cpp) and putting it together there
 (ClientFileReceiver.java), with parts delivered in the order they are sent.
 */
module FileTransfer {
  import opened Base64

  const PART_SIZE := 8192

  // the receiver keeps sizes and positions in Java ints
  const INT_LIMIT := 0x8000_0000

  /** A <part> element. */
  datatype Part = Part(start: nat, end: nat, encoding: string, data: seq<Byte>)

  // ---------------------------------------------------------------- what is sent, and what is made of it

  /** The parts follow each other from one position to another, without gap or overlap. */
  predicate Tile(parts: seq<Part>, from: nat, to: nat)
  {
    if parts == [] then
      from == to
    else
      parts[0].start == from < parts[0].end <= from + PART_SIZE && Tile(parts[1..], parts[0].end, to)
  }

  /** Every part carries the encoding of its stretch of the file. */
  predicate Carry(parts: seq<Part>, content: seq<Byte>)
  {
    forall i :: 0 <= i < |parts| ==>
      && parts[i].start <= parts[i].end <= |content| && parts[i].encoding == "base64"
      && IsEncoding(content[parts[i].start..parts[i].end], parts[i].data)
  }

  /** receiveFilePart on what has been written so far. */
  function Receive(output: seq<Byte>, part: Part): seq<Byte>
  {
    var buffer := RfcDecode(part.data);
    if part.encoding == "base64" && |buffer| == part.end - part.start then output + buffer else output
  }

  function ReceiveAll(output: seq<Byte>, parts: seq<Part>): seq<Byte>
    decreases |parts|
  {
    if parts == [] then output else ReceiveAll(Receive(output, parts[0]), parts[1..])
  }

  /** Parts that tile a file and carry its stretches are received as the file. */
  lemma {:induction false} TilesMakeTheFile(content: seq<Byte>, parts: seq<Part>, from: nat)
    requires from <= |content| && Tile(parts, from, |content|) && Carry(parts, content)
    ensures ReceiveAll(content[..from], parts) == content
    decreases |parts|
  {
    hide IsEncoding, RfcDecode;
    if parts == [] {
      assert content[..from] == content;
    } else {
      var p, rest := parts[0], parts[1..];
      RfcRoundTrip(content[p.start..p.end], p.data);
      assert Receive(content[..from], p) == content[..p.end];
      assert forall i :: 0 <= i < |rest| ==> rest[i] == parts[i + 1];
      TilesMakeTheFile(content, rest, p.end);
    }
  }

  /** A part the receiver can use: it is in Base64 and decodes to as many bytes as its positions say. */
  predicate Usable(part: Part)
  {
    part.encoding == "base64" && |RfcDecode(part.data)| == part.end - part.start
  }

  /** Of parts that tile a stretch of the file as many bytes are written as it has exactly if each of them is usable. */
  lemma {:induction false} CompleteExactly(output: seq<Byte>, parts: seq<Part>, from: nat, to: nat)
    requires Tile(parts, from, to)
    ensures |output| <= |ReceiveAll(output, parts)| <= |output| + (to - from)
    ensures |ReceiveAll(output, parts)| == |output| + (to - from) <==> forall i :: 0 <= i < |parts| ==> Usable(parts[i])
    decreases |parts|
  {
    hide RfcDecode;
    if parts == [] {
    } else {
      var p, rest := parts[0], parts[1..];
      CompleteExactly(Receive(output, p), rest, p.end, to);
      assert forall i :: 0 <= i < |rest| ==> rest[i] == parts[i + 1];
      assert forall i :: 0 < i < |parts| ==> parts[i] == rest[i - 1];
    }
  }

  lemma {:induction false} TileMore(parts: seq<Part>, from: nat, to: nat, p: Part)
    requires Tile(parts, from, to) && p.start == to < p.end <= to + PART_SIZE
    ensures Tile(parts + [p], from, p.end)
    decreases |parts|
  {
    if parts == [] {
      assert parts + [p] == [p] && [p][1..] == [];
    } else {
      TileMore(parts[1..], parts[0].end, to, p);
      assert (parts + [p])[1..] == parts[1..] + [p];
    }
  }

  // ---------------------------------------------------------------- the client's side

  /** The C stream the file is read through. */
  class Stream {
    const content: seq<Byte>
    var position: nat
    var eof: bool

    constructor (content: seq<Byte>)
      ensures this.content == content && position == 0 && !eof
    {
      this.content, position, eof := content, 0, false;
    }

    // fseek from the start
    method Seek(offset: nat)
      modifies this
      ensures position == offset && !eof
    {
      position, eof := offset, false;
    }

    // fread: the end-of-file mark is set only by a read that comes up short
    method Read(size: nat) returns (data: seq<Byte>)
      modifies this
      ensures |data| <= size && eof == (|data| < size || old(eof))
      ensures |data| < size ==> old(position) + |data| >= |content|
      ensures data == [] || (old(position) + |data| <= |content| && data == content[old(position)..old(position) + |data|])
      ensures size > 0 && old(position) < |content| ==> data != []
      ensures position == old(position) + |data|
    {
      var n := if position >= |content| then 0 else if |content| - position < size then |content| - position else size;
      data := if n == 0 then [] else content[position..position + n];
      if n < size {
        eof := true;
      }
      position := position + n;
    }
  }

  class FileUploader {
    const fileStream: Stream
    var fileOpened: bool
    // the parts handed to the server connection
    var sent: seq<Part>

    constructor (content: seq<Byte>)
      ensures fresh(fileStream) && fileStream.content == content && fileOpened && sent == []
    {
      fileStream := new Stream(content);
      fileOpened, sent := true, [];
    }

    /** How much could be read, or 0 at the end of the file even if a last piece was read and sent. */
    method SendFilePart(offset: nat, size: nat) returns (result: nat)
      requires offset <= |fileStream.content| < INT_LIMIT && 0 < size
      modifies this`sent, fileStream
      ensures !fileOpened ==> result == 0 && sent == old(sent)
      ensures fileOpened && offset == |fileStream.content| ==> result == 0 && sent == old(sent)
      ensures fileOpened && offset < |fileStream.content| ==>
        && |sent| == |old(sent)| + 1 && sent[..|old(sent)|] == old(sent)
        && var p := sent[|old(sent)|];
        && p.start == offset < p.end <= |fileStream.content| && p.encoding == "base64"
        && IsEncoding(fileStream.content[p.start..p.end], p.data)
        && p.end == (if |fileStream.content| - offset < size then |fileStream.content| else offset + size)
        && result == (if |fileStream.content| - offset < size then 0 else size)
    {
      hide IsEncoding, Encoded;
      if fileOpened {
        fileStream.Seek(offset);
        var filePart := fileStream.Read(size);
        var end := offset + |filePart|;
        var encodedFilePart, encodedLength := Base64.Encode(filePart);
        if |filePart| > 0 {
          sent := sent + [Part(offset, end, "base64", encodedFilePart[..encodedLength])];
        }
        if fileStream.eof {
          return 0;
        }
        return |filePart|;
      }
      return 0;
    }

    /** The loop of sendFile: it ends, and the parts sent tile the file and carry it. */
    method SendFile()
      requires fileOpened && sent == [] && |fileStream.content| < INT_LIMIT
      modifies this`sent, fileStream
      ensures Tile(sent, 0, |fileStream.content|) && Carry(sent, fileStream.content)
    {
      hide IsEncoding;
      var offset := 0;
      var bytesRead;
      var more := true;
      while more
        invariant offset <= |fileStream.content| && Carry(sent, fileStream.content)
        invariant Tile(sent, 0, if more then offset else |fileStream.content|)
        decreases |fileStream.content| - offset, more
      {
        ghost var before := sent;
        bytesRead := SendFilePart(offset, PART_SIZE);
        if sent != before {
          TileMore(before, 0, offset, sent[|before|]);
          assert sent == before + [sent[|before|]];
        }
        offset := offset + bytesRead;
        more := bytesRead > 0;
      }
    }
  }

  // ---------------------------------------------------------------- the server's side

  class ClientFileReceiver {
    // outputFile
    var output: seq<Byte>

    constructor ()
      ensures output == []
    {
      output := [];
    }

    method ReceiveFilePart(part: Part)
      modifies this
      ensures output == Receive(old(output), part)
      ensures output == if part.encoding == "base64" && |RfcDecode(part.data)| == part.end - part.start
                        then old(output) + RfcDecode(part.data) else old(output)
    {
      var partSize := part.end - part.start;
      if part.encoding == "base64" {
        var buffer := RfcDecode(part.data);
        if |buffer| == partSize {
          output := output + buffer;
        }
      }
    }
  }

  /** A file sent part by part, and received part by part in the same order, arrives as it was. */
  method Transfer(content: seq<Byte>) returns (received: seq<Byte>)
    requires |content| < INT_LIMIT
    ensures received == content
  {
    hide Receive, Tile, Carry;
    var uploader := new FileUploader(content);
    uploader.SendFile();
    var receiver := new ClientFileReceiver();
    assert uploader.sent[0..] == uploader.sent;
    for i := 0 to |uploader.sent|
      invariant ReceiveAll(receiver.output, uploader.sent[i..]) == ReceiveAll([], uploader.sent)
      modifies receiver
    {
      assert uploader.sent[i..][1..] == uploader.sent[i + 1..];
      receiver.ReceiveFilePart(uploader.sent[i]);
    }
    assert content[..0] == [];
    TilesMakeTheFile(content, uploader.sent, 0);
    return receiver.output;
  }
}
