/** The Read half that Grouk streams and mux streams share: a queue of chunks and a partly read chunk. */
module Reader {
  import opened Bytes

  datatype ReadResult = Blocked | Eof | Got(bytes: seq<byte>)

  /** The bytes a result carries. */
  function BytesOf(result: ReadResult): seq<byte> {
    if result.Got? then result.bytes else []
  }

  /**
   Read with a buffer of n bytes: what is left of the last chunk, otherwise the next chunk
   in the queue. `eof` picks the closed case when the stream is closed and data is queued too.
   */
  function Take(readBuf: seq<byte>, readCh: seq<seq<byte>>, closed: bool, n: nat, eof: bool)
    : (seq<byte>, seq<seq<byte>>, ReadResult)
  {
    if |readBuf| > 0 then
      var m := if n < |readBuf| then n else |readBuf|;
      (readBuf[m..], readCh, Got(readBuf[..m]))
    else if |readCh| > 0 && !(closed && eof) then
      var m := if n < |readCh[0]| then n else |readCh[0]|;
      (readCh[0][m..], readCh[1..], Got(readCh[0][..m]))
    else if closed then (readBuf, readCh, Eof)
    else (readBuf, readCh, Blocked)
  }

  /** The queue is the end of what arrived; the bytes before it were returned or are buffered. */
  ghost predicate BytesOk(got: seq<byte>, readBuf: seq<byte>, readCh: seq<seq<byte>>, arrived: seq<seq<byte>>) {
    && |readCh| <= |arrived|
    && readCh == arrived[|arrived| - |readCh|..]
    && got + readBuf == Flatten(arrived[..|arrived| - |readCh|])
  }

  lemma BytesInOrder(got: seq<byte>, readBuf: seq<byte>, readCh: seq<seq<byte>>, arrived: seq<seq<byte>>)
    requires BytesOk(got, readBuf, readCh, arrived)
    ensures got + readBuf + Flatten(readCh) == Flatten(arrived)
  {
    var k := |arrived| - |readCh|;
    assert arrived == arrived[..k] + arrived[k..];
    FlattenConcat(arrived[..k], arrived[k..]);
  }

  lemma QueueOne(got: seq<byte>, readBuf: seq<byte>, readCh: seq<seq<byte>>, arrived: seq<seq<byte>>, data: seq<byte>)
    requires BytesOk(got, readBuf, readCh, arrived)
    ensures BytesOk(got, readBuf, readCh + [data], arrived + [data])
  {
    var k := |arrived| - |readCh|;
    assert (arrived + [data])[..k] == arrived[..k];
    assert (arrived + [data])[k..] == arrived[k..] + [data];
  }

  /** Read moves bytes from the buffer and the queue to its caller and loses none. */
  lemma TakeConserves(got: seq<byte>, readBuf: seq<byte>, readCh: seq<seq<byte>>, closed: bool,
                      arrived: seq<seq<byte>>, n: nat, eof: bool)
    requires BytesOk(got, readBuf, readCh, arrived)
    ensures var (buf, ch, result) := Take(readBuf, readCh, closed, n, eof);
            BytesOk(got + BytesOf(result), buf, ch, arrived)
  {
    var (buf, ch, result) := Take(readBuf, readCh, closed, n, eof);
    if !result.Got? {
      assert got + [] == got;
    } else if |readBuf| > 0 {
      assert got + result.bytes + buf == got + readBuf;
    } else {
      var taken := |arrived| - |readCh|;
      assert readCh[0] == arrived[taken] && readCh[1..] == arrived[taken + 1..];
      assert arrived[..taken + 1] == arrived[..taken] + [arrived[taken]];
      FlattenSnoc(arrived[..taken], arrived[taken]);
      assert got + result.bytes + buf == got + readCh[0];
      assert got == got + readBuf;
    }
  }

  /** What is handed out next: the rest of the chunk that was read in part, otherwise the first chunk queued. */
  function NextPiece(readBuf: seq<byte>, readCh: seq<seq<byte>>): seq<byte> {
    if readBuf != [] then readBuf else if readCh != [] then readCh[0] else []
  }

  /** When Read waits, when it answers end of file, and otherwise how much of the next piece it hands out. */
  ghost predicate Answers(readBuf: seq<byte>, readCh: seq<seq<byte>>, closed: bool, n: nat, eof: bool, result: ReadResult) {
    && (result.Blocked? <==> readBuf == [] && readCh == [] && !closed)
    && (result.Eof? <==> readBuf == [] && closed && (readCh == [] || eof))
    && (result.Got? ==>
          var piece := NextPiece(readBuf, readCh);
          result.bytes == if n < |piece| then piece[..n] else piece)
  }

  lemma TakeAnswers(readBuf: seq<byte>, readCh: seq<seq<byte>>, closed: bool, n: nat, eof: bool)
    ensures Answers(readBuf, readCh, closed, n, eof, Take(readBuf, readCh, closed, n, eof).2)
  {
  }

  // ---------- what Read answers, from the bytes alone ----------

  /**
   The answer of a reader that has returned `got` of the bytes `all`: it waits when all were
   returned on an open stream; it says end of file on a closed stream only, and always when
   all were returned; what it hands out is what comes next.
   */
  ghost predicate ReadsAll(answer: ReadResult, got: seq<byte>, all: seq<byte>, closed: bool, n: nat, eof: bool) {
    && (answer.Blocked? <==> got == all && !closed)
    && (answer.Eof? ==> closed)
    && (closed && got == all ==> answer.Eof?)
    && (answer.Got? ==> got + answer.bytes <= all && (n > 0 ==> answer.bytes != []))
    && (got != all && !eof ==> answer.Got?)
  }

  lemma AllReturned(got: seq<byte>, readBuf: seq<byte>, readCh: seq<seq<byte>>, all: seq<byte>)
    requires got + readBuf + Flatten(readCh) == all && forall i :: 0 <= i < |readCh| ==> readCh[i] != []
    ensures got == all <==> readBuf == [] && readCh == []
  {
  }

  lemma Beginning(a: seq<byte>, b: seq<byte>, c: seq<byte>, all: seq<byte>)
    requires a + b + c == all
    ensures a <= all
  {
  }

  lemma AnswerReads(readBuf: seq<byte>, readCh: seq<seq<byte>>, closed: bool, got: seq<byte>, answer: ReadResult,
                    all: seq<byte>, n: nat, eof: bool)
    requires Answers(readBuf, readCh, closed, n, eof, answer)
    requires got == all <==> readBuf == [] && readCh == []
    requires got + BytesOf(answer) <= all && forall i :: 0 <= i < |readCh| ==> readCh[i] != []
    ensures ReadsAll(answer, got, all, closed, n, eof)
  {
  }

  /** When no chunk is empty, the answer follows from the bytes. */
  lemma ReadsArrived(got: seq<byte>, readBuf: seq<byte>, readCh: seq<seq<byte>>, closed: bool, arrived: seq<seq<byte>>,
                     n: nat, eof: bool)
    requires BytesOk(got, readBuf, readCh, arrived)
    requires forall i :: 0 <= i < |arrived| ==> arrived[i] != []
    ensures ReadsAll(Take(readBuf, readCh, closed, n, eof).2, got, Flatten(arrived), closed, n, eof)
  {
    var (buf, ch, answer) := Take(readBuf, readCh, closed, n, eof);
    TakeAnswers(readBuf, readCh, closed, n, eof);
    BytesInOrder(got, readBuf, readCh, arrived);
    AllReturned(got, readBuf, readCh, Flatten(arrived));
    TakeConserves(got, readBuf, readCh, closed, arrived, n, eof);
    BytesInOrder(got + BytesOf(answer), buf, ch, arrived);
    Beginning(got + BytesOf(answer), buf, Flatten(ch), Flatten(arrived));
    AnswerReads(readBuf, readCh, closed, got, answer, Flatten(arrived), n, eof);
  }

  // ---------- reading to the end ----------

  /** Reads with the given buffer sizes, as long as there is something queued: the bytes, and what is left. */
  function Takes(readBuf: seq<byte>, readCh: seq<seq<byte>>, closed: bool, sizes: seq<nat>)
    : (seq<byte>, seq<byte>, seq<seq<byte>>)
    decreases |sizes|
  {
    if sizes == [] then ([], readBuf, readCh)
    else
      var (buf, ch, result) := Take(readBuf, readCh, closed, sizes[0], false);
      var (more, buf', ch') := Takes(buf, ch, closed, sizes[1..]);
      (BytesOf(result) + more, buf', ch')
  }

  /** The rounds that reading everything may take. */
  function Rounds(readBuf: seq<byte>, readCh: seq<seq<byte>>): nat {
    |readBuf| + |Flatten(readCh)| + |readCh|
  }

  lemma TakeShrinks(readBuf: seq<byte>, readCh: seq<seq<byte>>, closed: bool, n: nat)
    requires n > 0
    ensures var (buf, ch, result) := Take(readBuf, readCh, closed, n, false);
            && BytesOf(result) + (buf + Flatten(ch)) == readBuf + Flatten(readCh)
            && (Rounds(buf, ch) < Rounds(readBuf, readCh) || (readBuf == [] && readCh == [] && buf == [] && ch == []))
  {
    var (buf, ch, result) := Take(readBuf, readCh, closed, n, false);
    if readBuf != [] {
      assert BytesOf(result) + buf == readBuf;
    } else if readCh != [] {
      assert BytesOf(result) + buf == readCh[0];
      assert Flatten(readCh) == readCh[0] + Flatten(readCh[1..]);
    }
    Associate(BytesOf(result), buf, Flatten(ch));
  }

  /** Enough reads return everything, in order, and leave nothing. */
  lemma {:induction false} TakesAll(readBuf: seq<byte>, readCh: seq<seq<byte>>, closed: bool, sizes: seq<nat>)
    requires forall i :: 0 <= i < |sizes| ==> sizes[i] > 0
    requires |sizes| >= Rounds(readBuf, readCh)
    ensures Takes(readBuf, readCh, closed, sizes) == (readBuf + Flatten(readCh), [], [])
    decreases |sizes|
  {
    if sizes == [] {
      assert readBuf == [] && readCh == [];
    } else {
      var (buf, ch, result) := Take(readBuf, readCh, closed, sizes[0], false);
      TakeShrinks(readBuf, readCh, closed, sizes[0]);
      TakesAll(buf, ch, closed, sizes[1..]);
    }
  }
}
