/** What a client has read of one reply, for the cooperative clients. */
module Replies {
  import opened Common
  import opened StreamRead

  /** text is everything read so far of the stream behind ssl, which never makes a read() wait. */
  ghost predicate Collected(stream: Stream, ssl: Engine, text: seq<byte>)
    reads stream, ssl
  {
    stream.ssl == ssl && ssl.Valid() && !ssl.blocking && text == ssl.peer[..ssl.cursor]
  }

  /** read() has given null: after a clean end everything was read, otherwise the stream was reset or the
      connection closed. */
  ghost predicate Finished(ssl: Engine)
    reads ssl
  {
    || (ssl.error == ZeroReturn && ssl.cursor == |ssl.peer|)
    || (ssl.error == Failure && Ended(ssl.state))
  }

  /** A read has failed for another reason, and read() has thrown. */
  ghost predicate Broken(ssl: Engine)
    reads ssl
  {
    ssl.error == Failure && (ssl.state == Open || ssl.state == Other)
  }

  /** A finished reply is the peer's whole data, unless the stream was reset or the connection closed. */
  ghost predicate Answered(ssl: Engine, text: seq<byte>)
    reads ssl
  {
    Finished(ssl) && ssl.cursor <= |ssl.peer| && text == ssl.peer[..ssl.cursor]
  }

  lemma WholeUnlessFailed(ssl: Engine, text: seq<byte>)
    requires Answered(ssl, text)
    ensures text == ssl.peer || (text <= ssl.peer && ssl.error == Failure && Ended(ssl.state))
  {
  }

  /** One read(65535). */
  method ReadOne(stream: Stream, ghost ssl: Engine, ghost text: seq<byte>) returns (chunk: ReadResult)
    requires Collected(stream, ssl, text)
    modifies stream`lastCap, stream`reallocs, stream`last, ssl
    ensures Collected(stream, ssl, text + BytesOf(chunk)) && ssl.calls > old(ssl.calls)
    ensures chunk.Data? ==> chunk.bytes != []
    ensures chunk == End ==> Finished(ssl)
    ensures chunk == Nothing ==> ssl.error == Want
    ensures chunk == Threw ==> Broken(ssl)
    ensures stream.last == chunk
  {
    ghost var at := ssl.cursor;
    chunk := stream.Read(65535);
    assert ssl.peer[..ssl.cursor] == ssl.peer[..at] + ssl.peer[at..ssl.cursor];
  }

  /** The same, appended to the text unless it is "" or null. */
  method ReadMore(stream: Stream, ghost ssl: Engine, text: seq<byte>) returns (chunk: ReadResult, text': seq<byte>)
    requires Collected(stream, ssl, text)
    modifies stream`lastCap, stream`reallocs, stream`last, ssl
    ensures Collected(stream, ssl, text') && text' == text + BytesOf(chunk)
    ensures chunk.Data? ==> |text'| > |text|
    ensures chunk == End ==> Finished(ssl)
    ensures chunk == Nothing ==> ssl.error == Want
    ensures chunk == Threw ==> Broken(ssl)
    ensures stream.last == chunk && ssl.calls > old(ssl.calls)
  {
    chunk := ReadOne(stream, ssl, text);
    text' := text + BytesOf(chunk);
  }
}
