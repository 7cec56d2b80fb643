/** The rate-limited output buffer in front of a migration backend that may accept
    only part of what it is offered, ask to be tried again, or fail. */
module BufferedFile {
  import opened Wire

  const EAGAIN: int := -11
  const EINVAL: int := -22

  /** `replies` are the backend's coming answers: how many bytes it is ready to
      take, or an error; when they run out it asks to be tried again. */
  datatype File = File(
    buffer: seq<Byte>, freeze: bool, xfer: nat, limit: nat, error: int,
    delivered: seq<Byte>, replies: seq<int>)

  /** Every byte accepted so far, in the order it will have gone out. */
  function Total(f: File): seq<Byte> { f.delivered + f.buffer }

  /** The answer to an offer of `n` bytes. */
  function Answer(replies: seq<int>, n: nat): (r: int)
    ensures r <= n || r == EAGAIN
  {
    if replies == [] then EAGAIN else if replies[0] > n then n else replies[0]
  }

  function Offered(f: File, data: seq<Byte>): File {
    var r := Answer(f.replies, |data|);
    f.(replies := if f.replies == [] then [] else f.replies[1..],
       delivered := if r > 0 then f.delivered + data[..r] else f.delivered)
  }

  /** Offers the buffer until it is empty or the backend stops taking. */
  function Drain(f: File): (d: File)
    ensures |d.replies| <= |f.replies|
    ensures f.buffer != [] && f.replies != [] ==> |d.replies| < |f.replies|
    decreases |f.buffer|
  {
    if f.buffer == [] then f
    else
      var r, g := Answer(f.replies, |f.buffer|), Offered(f, f.buffer);
      if r == EAGAIN then g.(freeze := true)
      else if r <= 0 then g.(error := r)
      else Drain(g.(buffer := f.buffer[r..]))
  }

  lemma DrainNothing(f: File)
    requires f.buffer == []
    ensures Drain(f) == f
  {
  }

  lemma DrainStep(f: File)
    requires f.buffer != []
    ensures var r, g := Answer(f.replies, |f.buffer|), Offered(f, f.buffer);
            && r <= |f.buffer|
            && (r == EAGAIN ==> Drain(f) == g.(freeze := true))
            && (r != EAGAIN && r <= 0 ==> Drain(f) == g.(error := r))
            && (r > 0 ==> Drain(f) == Drain(g.(buffer := f.buffer[r..])))
  {
  }

  function Flush(f: File): File {
    if f.error != 0 then f else Drain(f)
  }

  datatype Outcome = Outcome(f: File, failed: bool, rest: seq<Byte>)

  /** Offers new data directly, within the rate limit; `rest` is not taken. */
  function Direct(f: File, data: seq<Byte>): Outcome
    decreases |data|
  {
    if f.freeze || data == [] || f.xfer > f.limit then Outcome(f, false, data)
    else
      var r, g := Answer(f.replies, |data|), Offered(f, data);
      if r == EAGAIN then Outcome(g.(freeze := true), false, data)
      else if r <= 0 then Outcome(g.(error := r), true, data)
      else Direct(g.(xfer := f.xfer + r), data[r..])
  }

  /** One turn of the sending loop. */
  lemma DirectStep(f: File, data: seq<Byte>)
    ensures var r, g, o := Answer(f.replies, |data|), Offered(f, data), Direct(f, data);
            && (f.freeze || data == [] || f.xfer > f.limit ==> o == Outcome(f, false, data))
            && (!(f.freeze || data == [] || f.xfer > f.limit) ==>
                  && (r == EAGAIN ==> o == Outcome(g.(freeze := true), false, data))
                  && (r != EAGAIN && r <= 0 ==> o == Outcome(g.(error := r), true, data))
                  && (r > 0 ==> o == Direct(g.(xfer := f.xfer + r), data[r..])))
  {
  }

  /** A write: flush first, send what goes directly, buffer the rest. */
  function Put(f: File, data: seq<Byte>): (File, int) {
    if f.error != 0 then (f, f.error)
    else
      var o := Direct(Flush(f.(freeze := false)), data);
      if o.failed then (o.f, EINVAL) else (o.f.(buffer := o.f.buffer + o.rest), |data|)
  }

  /** The timer: a new allowance, unless the backend has to be waited for. */
  function Tick(f: File): File {
    if f.error != 0 || f.freeze then f else Flush(f.(xfer := 0))
  }

  /** Closing flushes until the buffer is empty or an error is set. */
  function Closing(f: File): File
    decreases |f.replies|
  {
    if f.error != 0 || f.buffer == [] || f.replies == [] then f else Closing(Flush(f))
  }

  // ---------------------------------------------------------------- properties

  /** The backend only takes something or asks to be tried again. */
  ghost predicate Good(replies: seq<int>) {
    forall i :: 0 <= i < |replies| ==> replies[i] > 0 || replies[i] == EAGAIN
  }

  lemma GoodAnswer(f: File, data: seq<Byte>)
    requires Good(f.replies) && data != []
    ensures Good(Offered(f, data).replies)
    ensures Answer(f.replies, |data|) > 0 || Answer(f.replies, |data|) == EAGAIN
  {
  }

  /** Flushing, whatever the backend answers, neither loses nor reorders a byte. */
  lemma {:induction false} DrainConserves(f: File)
    ensures Total(Drain(f)) == Total(f)
    decreases |f.buffer|
  {
    if f.buffer == [] {
    } else {
      var r, g := Answer(f.replies, |f.buffer|), Offered(f, f.buffer);
      if r != EAGAIN && r > 0 {
        var h := g.(buffer := f.buffer[r..]);
        assert f.buffer == f.buffer[..r] + f.buffer[r..];
        DrainConserves(h);
      }
    }
  }

  /** A flush leaves an empty buffer or a frozen file, unless the backend failed. */
  lemma {:induction false} DrainSettles(f: File)
    requires f.error == 0 && Good(f.replies)
    ensures Good(Drain(f).replies) && Drain(f).error == 0 && (Drain(f).buffer == [] || Drain(f).freeze)
    decreases |f.buffer|
  {
    hide Good, Answer;
    if f.buffer == [] {
    } else {
      GoodAnswer(f, f.buffer);
      var r, g := Answer(f.replies, |f.buffer|), Offered(f, f.buffer);
      if r != EAGAIN && r > 0 { DrainSettles(g.(buffer := f.buffer[r..])); }
    }
  }

  /** Sending directly takes a prefix of the data and leaves the buffer alone. */
  lemma {:induction false} DirectSends(f: File, data: seq<Byte>)
    ensures var o := Direct(f, data);
            && |o.rest| <= |data| && o.rest == data[|data| - |o.rest|..]
            && o.f.buffer == f.buffer && o.f.delivered == f.delivered + data[..|data| - |o.rest|]
            && (f.freeze ==> o.rest == data)
    decreases |data|
  {
    hide Direct, Answer;
    DirectStep(f, data);
    if f.freeze || data == [] || f.xfer > f.limit {
    } else {
      var r, g := Answer(f.replies, |data|), Offered(f, data);
      if r != EAGAIN && r > 0 {
        var h := g.(xfer := f.xfer + r);
        DirectSends(h, data[r..]);
        assert Direct(f, data) == Direct(h, data[r..]);
        Pieces(data, r, |Direct(h, data[r..]).rest|);
      }
    }
  }

  /** What is sent counts against the allowance, and sending stops for no other reason
      than an empty rest, a failure, a freeze or an allowance used up. */
  lemma {:induction false} DirectCounts(f: File, data: seq<Byte>)
    ensures var o := Direct(f, data);
            && |o.rest| <= |data| && o.f.xfer == f.xfer + (|data| - |o.rest|) && o.f.limit == f.limit
            && (o.rest == [] || o.failed || o.f.freeze || o.f.xfer > o.f.limit)
    decreases |data|
  {
    hide Direct, Answer;
    DirectStep(f, data);
    if f.freeze || data == [] || f.xfer > f.limit {
    } else {
      var r, g := Answer(f.replies, |data|), Offered(f, data);
      if r != EAGAIN && r > 0 { DirectCounts(g.(xfer := f.xfer + r), data[r..]); }
    }
  }

  lemma Pieces(data: seq<Byte>, r: nat, rest: nat)
    requires r <= |data| && rest <= |data| - r
    ensures data[r..][|data| - r - rest..] == data[|data| - rest..]
    ensures data[..r] + data[r..][..|data| - r - rest] == data[..|data| - rest]
  {
  }

  /** A backend that does not fail lets sending go on without an error. */
  lemma {:induction false} DirectGood(f: File, data: seq<Byte>)
    requires Good(f.replies)
    ensures var o := Direct(f, data); Good(o.f.replies) && !o.failed && o.f.error == f.error
    decreases |data|
  {
    hide Good, Answer, Direct;
    DirectStep(f, data);
    if f.freeze || data == [] || f.xfer > f.limit {
    } else {
      var r, g := Answer(f.replies, |data|), Offered(f, data);
      GoodAnswer(f, data);
      if r != EAGAIN && r > 0 { DirectGood(g.(xfer := f.xfer + r), data[r..]); }
    }
  }

  /** How far a flush of `n` bytes gets, from the answers alone. */
  datatype Course = Course(left: nat, replies: seq<int>, freeze: bool, error: int)

  function FlushCourse(n: nat, replies: seq<int>): Course
    decreases n
  {
    if n == 0 then Course(0, replies, false, 0)
    else
      var r, rest := Answer(replies, n), if replies == [] then [] else replies[1..];
      if r == EAGAIN then Course(n, rest, true, 0)
      else if r <= 0 then Course(n, rest, false, r)
      else FlushCourse(n - r, rest)
  }

  /** A flush moves a prefix of the buffer to the backend, whatever it contains. */
  lemma {:induction false} DrainCourse(f: File)
    requires f.error == 0 && !f.freeze
    ensures var c := FlushCourse(|f.buffer|, f.replies);
            && c.left <= |f.buffer|
            && var gone := |f.buffer| - c.left;
               Drain(f) == f.(buffer := f.buffer[gone..], freeze := c.freeze, error := c.error,
                              delivered := f.delivered + f.buffer[..gone], replies := c.replies)
    decreases |f.buffer|
  {
    if f.buffer == [] {
    } else {
      var r, g := Answer(f.replies, |f.buffer|), Offered(f, f.buffer);
      if r != EAGAIN && r > 0 {
        DrainCourse(g.(buffer := f.buffer[r..]));
        Pieces(f.buffer, r, FlushCourse(|f.buffer| - r, g.replies).left);
      }
    }
  }

  /** Nothing can be overtaken: there is nothing to send, or the flush empties the
      buffer or freezes the file, or the allowance is used up, or the backend takes
      nothing. */
  predicate KeepsOrder(f: File, n: nat) {
    var c := FlushCourse(|f.buffer|, f.replies);
    n == 0 || c.left == 0 || c.freeze || f.xfer > f.limit || Answer(c.replies, n) <= 0
  }

  /** The stream has grown by a prefix of the data. */
  predicate Kept(f: File, data: seq<Byte>) {
    var total := Total(Put(f, data).0);
    Total(f) <= total && total <= Total(f) + data
  }

  function With(f: File, b: seq<Byte>): File { f.(buffer := b) }

  /** Something is sent directly exactly when the first answer is positive. */
  lemma DirectStarts(f: File, data: seq<Byte>)
    requires data != []
    ensures |Direct(f, data).rest| <= |data|
    ensures |Direct(f, data).rest| == |data| <==> f.freeze || f.xfer > f.limit || Answer(f.replies, |data|) <= 0
  {
    hide Direct, Answer;
    DirectStep(f, data);
    DirectSends(f, data);
    if !f.freeze && f.xfer <= f.limit && Answer(f.replies, |data|) > 0 {
      var r := Answer(f.replies, |data|);
      DirectSends(Offered(f, data).(xfer := f.xfer + r), data[r..]);
    }
  }

  /** The stream after a write, piece by piece. */
  lemma PutPieces(f: File, data: seq<Byte>) returns (c: Course, sent: nat)
    requires f.error == 0
    ensures c == FlushCourse(|f.buffer|, f.replies) && c.left <= |f.buffer| && sent <= |data|
    ensures var gone := |f.buffer| - c.left;
            var g := f.(buffer := f.buffer[gone..], freeze := c.freeze, error := c.error,
                        delivered := f.delivered + f.buffer[..gone], replies := c.replies);
            && Flush(f.(freeze := false)) == g
            && sent == |data| - |Direct(g, data).rest|
            && Total(Put(f, data).0) ==
               f.delivered + f.buffer[..gone] + data[..sent] + f.buffer[gone..] +
               if Direct(g, data).failed then [] else data[sent..]
  {
    hide Drain, Direct, FlushCourse;
    c := FlushCourse(|f.buffer|, f.replies);
    DrainCourse(f.(freeze := false));
    var g := Flush(f.(freeze := false));
    DirectSends(g, data);
    sent := |data| - |Direct(g, data).rest|;
  }

  lemma Grown(d: seq<Byte>, b: seq<Byte>, gone: nat, data: seq<Byte>, sent: nat, tail: seq<Byte>)
    requires gone <= |b| && sent <= |data| && (gone == |b| || sent == 0) && (tail == [] || tail == data[sent..])
    ensures var total := d + b[..gone] + data[..sent] + b[gone..] + tail;
            d + b <= total && total <= d + b + data
  {
    var total := d + b[..gone] + data[..sent] + b[gone..] + tail;
    assert b[..gone] + data[..sent] + b[gone..] == b + data[..sent];
    assert total == (d + b) + (data[..sent] + tail);
    assert data[..sent] + data[sent..] == data;
  }

  lemma KeptWhen(f: File, data: seq<Byte>)
    requires f.error == 0 && KeepsOrder(f, |data|)
    ensures Kept(f, data)
  {
    hide Put, Flush, FlushCourse, Direct, Answer;
    var c, sent := PutPieces(f, data);
    var gone := |f.buffer| - c.left;
    var g := Flush(f.(freeze := false));
    if data != [] { DirectStarts(g, data); }
    Grown(f.delivered, f.buffer, gone, data, sent, if Direct(g, data).failed then [] else data[sent..]);
  }

  /** Zeroes in the buffer, ones in the data. */
  lemma OvertakenOtherwise(f: File, data: seq<Byte>)
    requires f.error == 0 && !KeepsOrder(f, |data|)
    requires (forall i :: 0 <= i < |f.buffer| ==> f.buffer[i] == 0) && forall i :: 0 <= i < |data| ==> data[i] == 1
    ensures !Kept(f, data) && Total(Put(f, data).0) != Total(f) + data
  {
    hide Put, Flush, FlushCourse, Direct, Answer;
    var c, sent := PutPieces(f, data);
    DirectStarts(Flush(f.(freeze := false)), data);
    var at := |f.delivered| + |f.buffer| - c.left;
    assert Total(Put(f, data).0)[at] == 1 && Total(f)[at] == 0;
    assert (Total(f) + data)[at] == 0;
  }

  /** When a write keeps the order: for every content of the buffer and the data of
      these lengths the stream grows by a prefix of the data, if and only if the
      flush empties the buffer or freezes the file, the allowance is used up, or
      the backend's next answer is not positive. */
  lemma PutExact(f: File, n: nat)
    requires f.error == 0
    ensures (forall b, data :: |b| == |f.buffer| && |data| == n ==> Kept(With(f, b), data)) <==> KeepsOrder(f, n)
  {
    hide Kept, FlushCourse;
    if KeepsOrder(f, n) {
      forall b, data | |b| == |f.buffer| && |data| == n ensures Kept(With(f, b), data) {
        KeptWhen(With(f, b), data);
      }
    } else {
      var b, data := seq(|f.buffer|, _ => 0), seq(n, _ => 1);
      OvertakenOtherwise(With(f, b), data);
    }
  }

  lemma PrefixWhole(f: File, data: seq<Byte>)
    requires f.error == 0 && Kept(f, data) && Put(f, data).1 >= 0
    ensures Total(Put(f, data).0) == Total(f) + data
  {
    hide FlushCourse, Direct, Kept;
    var c, sent := PutPieces(f, data);
    assert |Total(Put(f, data).0)| == |Total(f)| + |data|;
    assert Kept(f, data) ==> Total(Put(f, data).0) <= Total(f) + data by { PrefixOf(f, data); }
  }

  lemma PrefixOf(f: File, data: seq<Byte>)
    requires Kept(f, data)
    ensures Total(Put(f, data).0) <= Total(f) + data
  {
  }

  /** With a backend that does not fail, a write always adds exactly its data. */
  lemma PutConserves(f: File, data: seq<Byte>)
    requires f.error == 0 && Good(f.replies)
    ensures Put(f, data).1 == |data| && Total(Put(f, data).0) == Total(f) + data
    ensures Put(f, data).0.error == 0 && Good(Put(f, data).0.replies)
  {
    hide Drain, Direct, FlushCourse, Kept;
    var start := f.(freeze := false);
    DrainCourse(start);
    DrainSettles(start);
    DirectGood(Flush(start), data);
    KeptWhen(f, data);
    PrefixWhole(f, data);
  }

  /** After a failed flush a write can overtake the buffer: the backend refuses
      the buffered byte and then takes the new one. */
  lemma FailedFlushReorders()
    ensures var f := File([1], false, 0, 10, 0, [], [-5, 1]);
            Put(f, [2]).1 == 1 && Put(f, [2]).0.delivered == [2] && Put(f, [2]).0.buffer == [1]
  {
    var f := File([1], false, 0, 10, 0, [], [-5, 1]);
    var g := File([1], false, 0, 10, -5, [], [1]);
    assert f.replies[1..] == [1];
    assert Flush(f) == g;
    var h := Offered(g, [2]);
    assert h.delivered == [] + [2] == [2];
    assert Direct(h.(xfer := 1), [2][1..]) == Outcome(h.(xfer := 1), false, []);
    assert Direct(g, [2]) == Outcome(h.(xfer := 1), false, []);
    assert [1] + [] == [1];
  }

  // ---------------------------------------------------------------- the caller

  /** What `qemu_fflush` does with the bytes the file has collected: a result that
      is not positive is recorded as an error of its own. */
  function WriteOut(f: File, data: seq<Byte>): File {
    if data == [] then f
    else
      var (g, r) := Put(f, data);
      if r > 0 then g else g.(error := EINVAL)
  }

  /** Sending directly uses up answers from the front; a failure is the last of
      them. */
  lemma {:induction false} DirectAnswers(f: File, data: seq<Byte>)
    ensures var o := Direct(f, data);
            && |o.f.replies| <= |f.replies| && o.f.replies == f.replies[|f.replies| - |o.f.replies|..]
            && (!o.failed ==> o.f.error == f.error)
            && (o.failed ==> |o.f.replies| < |f.replies|)
            && (o.failed ==>
                var a := f.replies[|f.replies| - |o.f.replies| - 1]; a <= 0 && a != EAGAIN && o.f.error == a)
    decreases |data|
  {
    hide Direct;
    DirectStep(f, data);
    if f.freeze || data == [] || f.xfer > f.limit {
    } else {
      var r, g := Answer(f.replies, |data|), Offered(f, data);
      if r != EAGAIN && r > 0 { DirectAnswers(g.(xfer := f.xfer + r), data[r..]); }
    }
  }

  lemma {:induction false} CourseAnswers(n: nat, replies: seq<int>)
    ensures var c := FlushCourse(n, replies);
            |c.replies| <= |replies| && c.replies == replies[|replies| - |c.replies|..]
    decreases n
  {
    var r := Answer(replies, n);
    if n == 0 || r <= 0 {
    } else {
      CourseAnswers(n - r, replies[1..]);
    }
  }

  /** A write that fails leaves the backend's failing answer as the error, so none
      at all if and only if that answer was zero. */
  lemma FailedPutError(f: File, data: seq<Byte>)
    requires f.error == 0 && Put(f, data).1 < 0
    ensures var e := Put(f, data).0;
            && |e.replies| < |f.replies|
            && var a := f.replies[|f.replies| - |e.replies| - 1];
               a <= 0 && a != EAGAIN && e.error == a && (e.error == 0 <==> a == 0)
  {
    hide Drain, Direct, FlushCourse;
    DrainCourse(f.(freeze := false));
    CourseAnswers(|f.buffer|, f.replies);
    DirectAnswers(Flush(f.(freeze := false)), data);
  }

  /** Sending `n` new bytes runs into a failing answer, from the answers alone. */
  predicate SendFails(n: nat, xfer: nat, limit: nat, replies: seq<int>)
    decreases n
  {
    if n == 0 || xfer > limit then false
    else
      var r := Answer(replies, n);
      if r == EAGAIN then false
      else if r <= 0 then true
      else SendFails(n - r, xfer + r, limit, replies[1..])
  }

  lemma {:induction false} DirectFails(f: File, data: seq<Byte>)
    ensures Direct(f, data).failed <==> !f.freeze && SendFails(|data|, f.xfer, f.limit, f.replies)
    decreases |data|
  {
    hide Direct;
    DirectStep(f, data);
    if f.freeze || data == [] || f.xfer > f.limit {
    } else {
      var r := Answer(f.replies, |data|);
      if r != EAGAIN && r > 0 { DirectFails(Offered(f, data).(xfer := f.xfer + r), data[r..]); }
    }
  }

  /** The write itself fails, from the lengths and the answers. */
  predicate PutFails(f: File, n: nat) {
    var c := FlushCourse(|f.buffer|, f.replies);
    !c.freeze && SendFails(n, f.xfer, f.limit, c.replies)
  }

  /** Result and error of a write depend on the lengths and the answers only. */
  lemma PutOutcome(f: File, data: seq<Byte>)
    requires f.error == 0
    ensures Put(f, data).1 < 0 <==> PutFails(f, |data|)
    ensures !PutFails(f, |data|) ==>
              Put(f, data).1 == |data| && Put(f, data).0.error == FlushCourse(|f.buffer|, f.replies).error
  {
    hide Drain, Direct, FlushCourse, SendFails;
    DrainCourse(f.(freeze := false));
    DirectAnswers(Flush(f.(freeze := false)), data);
    DirectFails(Flush(f.(freeze := false)), data);
  }

  /** Nothing goes wrong unnoticed: without an error the bytes are in the stream,
      in order. */
  predicate Noticed(f: File, data: seq<Byte>) {
    WriteOut(f, data).error == 0 ==> Total(WriteOut(f, data)) == Total(f) + data
  }

  /** When a write of `n` bytes through its caller can go wrong without an error:
      exactly when it is not kept in order, the flush before it was ended by an
      answer of zero, and no answer to the write itself fails. */
  lemma WriteOutExact(f: File, n: nat)
    requires f.error == 0 && n > 0
    ensures (forall b, data :: |b| == |f.buffer| && |data| == n ==> Noticed(With(f, b), data)) <==>
            KeepsOrder(f, n) || FlushCourse(|f.buffer|, f.replies).error != 0 || PutFails(f, n)
  {
    hide FlushCourse, SendFails, Put, Kept;
    if KeepsOrder(f, n) || FlushCourse(|f.buffer|, f.replies).error != 0 || PutFails(f, n) {
      forall b, data | |b| == |f.buffer| && |data| == n ensures Noticed(With(f, b), data) {
        PutOutcome(With(f, b), data);
        if KeepsOrder(f, n) && !PutFails(f, n) {
          KeptWhen(With(f, b), data);
          PrefixWhole(With(f, b), data);
        }
      }
    } else {
      var b, data := seq(|f.buffer|, _ => 0), seq(n, _ => 1);
      PutOutcome(With(f, b), data);
      OvertakenOtherwise(With(f, b), data);
      assert !Noticed(With(f, b), data);
    }
  }

  /** Such a case: the backend answers zero to the buffered byte and then takes the
      new one. */
  lemma ZeroAnswerReorders()
    ensures var e := WriteOut(File([1], false, 0, 10, 0, [], [0, 1]), [2]);
            e.error == 0 && e.delivered == [2] && e.buffer == [1]
  {
    var f := File([1], false, 0, 10, 0, [], [0, 1]);
    var g := File([1], false, 0, 10, 0, [], [1]);
    assert f.replies[1..] == [1];
    assert Drain(f) == g;
    var h := Offered(g, [2]);
    assert h.delivered == [] + [2] == [2];
    assert Direct(h.(xfer := 1), [2][1..]) == Outcome(h.(xfer := 1), false, []);
    assert Direct(g, [2]) == Outcome(h.(xfer := 1), false, []);
    assert [1] + [] == [1];
  }

  // ---------------------------------------------------------------------- runs

  datatype Op = Write(data: seq<Byte>) | Notify | TickOp | SetLimit(limit: nat)

  function Run(f: File, op: Op): File {
    match op
    case Write(data) => WriteOut(f, data)
    case Notify => Put(f, []).0
    case TickOp => Tick(f)
    case SetLimit(l) => if f.error != 0 then f else f.(limit := l)
  }

  function RunAll(f: File, ops: seq<Op>): File {
    if ops == [] then f else Run(RunAll(f, ops[..|ops| - 1]), ops[|ops| - 1])
  }

  function AllWritten(ops: seq<Op>): seq<Byte> {
    if ops == [] then [] else AllWritten(ops[..|ops| - 1]) + if ops[|ops| - 1].Write? then ops[|ops| - 1].data else []
  }

  /** Over every sequence of writes, notifications, timer ticks and rate changes: delivered and
      buffered bytes together are the bytes written, in order. */
  lemma {:induction false} Conservation(f: File, ops: seq<Op>)
    requires f.error == 0 && Good(f.replies)
    ensures var e := RunAll(f, ops);
            e.error == 0 && Good(e.replies) && Total(e) == Total(f) + AllWritten(ops)
    decreases |ops|
  {
    hide Put, Drain, Total;
    if ops == [] {
      NothingPut(f);
    } else {
      var front, op := ops[..|ops| - 1], ops[|ops| - 1];
      Conservation(f, front);
      var g := RunAll(f, front);
      OpConserves(g, op);
      assert (Total(f) + AllWritten(front)) + (if op.Write? then op.data else []) == Total(f) + AllWritten(ops);
    }
  }

  lemma NothingPut(f: File)
    ensures Total(f) + [] == Total(f)
  {
  }

  lemma OpConserves(f: File, op: Op)
    requires f.error == 0 && Good(f.replies)
    ensures Run(f, op).error == 0 && Good(Run(f, op).replies)
    ensures Total(Run(f, op)) == Total(f) + if op.Write? then op.data else []
  {
    hide Put, Drain;
    match op
    case Write(data) => PutConserves(f, data);
    case Notify => PutConserves(f, []);
    case TickOp =>
      DrainConserves(f.(xfer := 0));
      DrainSettles(f.(xfer := 0));
    case SetLimit(_) =>
  }

  /** The timer gives a file that is not frozen a new allowance, and leaves its buffer
      empty or the file frozen; a frozen file it leaves as it is. */
  lemma TickRenews(f: File)
    requires f.error == 0 && Good(f.replies)
    ensures f.freeze ==> Tick(f) == f
    ensures !f.freeze ==> Tick(f).xfer == 0 && (Tick(f).buffer == [] || Tick(f).freeze)
  {
    hide Drain;
    if !f.freeze {
      DrainCourse(f.(xfer := 0));
      DrainSettles(f.(xfer := 0));
    }
  }

  /** Closing loses nothing; when its loop ends while the backend still answers,
      everything has been delivered. */
  lemma {:induction false} ClosingDelivers(f: File)
    requires f.error == 0 && Good(f.replies)
    ensures var e := Closing(f);
            && e.error == 0 && Total(e) == Total(f)
            && (e.replies != [] ==> e.buffer == [])
            && (e.buffer == [] ==> e.delivered == Total(f))
    decreases |f.replies|
  {
    hide Drain;
    if f.buffer == [] || f.replies == [] {
    } else {
      DrainConserves(f);
      DrainSettles(f);
      ClosingDelivers(Flush(f));
    }
  }

  // ------------------------------------------------------------------ in place

  class BufferedWriter {
    var buffer: array<Byte>
    var size: nat
    var freeze: bool
    var xfer: nat
    var limit: nat
    var error: int
    /** The backend: what reached it and what it will answer. */
    var delivered: seq<Byte>
    var replies: seq<int>

    ghost predicate Valid()
      reads this
    {
      size <= buffer.Length
    }

    ghost function State(): File
      requires Valid()
      reads this, buffer
    {
      File(buffer[..size], freeze, xfer, limit, error, delivered, replies)
    }

    constructor (bytesPerSecond: nat)
      ensures Valid() && fresh(buffer)
      ensures State() == File([], false, 0, bytesPerSecond / 10, 0, [], [])
    {
      buffer := new Byte[0];
      size, freeze, xfer, limit, error := 0, false, 0, bytesPerSecond / 10, 0;
      delivered, replies := [], [];
    }

    /** Hands bytes to the backend. */
    method Offer(data: seq<Byte>) returns (r: int)
      requires Valid()
      modifies this`delivered, this`replies
      ensures Valid() && r == Answer(old(replies), |data|) && State() == Offered(old(State()), data)
    {
      r := Answer(replies, |data|);
      if replies != [] { replies := replies[1..]; }
      if r > 0 { delivered := delivered + data[..r]; }
    }

    /** Appends, growing the allocation when the data does not fit. */
    method Append(data: seq<Byte>)
      requires Valid()
      modifies this`buffer, this`size, buffer
      ensures Valid() && (buffer == old(buffer) || fresh(buffer))
      ensures buffer == old(buffer) <==> |data| <= old(buffer.Length) - old(size)
      ensures buffer != old(buffer) ==> buffer.Length == old(buffer.Length) + |data| + 1024
      ensures State() == old(State()).(buffer := old(State()).buffer + data)
    {
      ghost var was := buffer[..size];
      if |data| > buffer.Length - size {
        var grown := new Byte[buffer.Length + |data| + 1024];
        CopyArray(buffer, grown, size);
        buffer := grown;
      }
      CopySeq(data, buffer, size);
      size := size + |data|;
      assert buffer[..size] == was + data;
    }

    /** Offers the buffer from a moving offset, then moves the rest to the front. */
    method FlushBuffer()
      requires Valid()
      modifies this, buffer
      ensures Valid() && buffer == old(buffer)
      ensures State() == Flush(old(State()))
    {
      hide Drain;
      if error != 0 { return; }
      var offset := DrainLoop();
      MoveDown(buffer, offset, size);
      size := size - offset;
    }

    method DrainLoop() returns (offset: nat)
      requires Valid() && error == 0
      modifies this`freeze, this`error, this`delivered, this`replies
      ensures Valid() && offset <= size
      ensures State().(buffer := buffer[offset..size]) == Drain(old(State()))
    {
      hide Drain, Answer;
      ghost var start := State();
      offset := 0;
      while offset < size
        invariant Valid() && offset <= size
        invariant Drain(State().(buffer := buffer[offset..size])) == Drain(start)
        decreases size - offset
      {
        ghost var f := State().(buffer := buffer[offset..size]);
        DrainStep(f);
        var r := Offer(buffer[offset..size]);
        if r == EAGAIN {
          freeze := true;
          return;
        }
        if r <= 0 {
          error := r;
          return;
        }
        assert buffer[offset + r..size] == f.buffer[r..];
        offset := offset + r;
      }
      DrainNothing(State().(buffer := []));
      assert buffer[offset..size] == [];
    }

    /** The write callback; `put_ready`, called after it, belongs to the client. */
    method PutBuffer(data: seq<Byte>) returns (r: int)
      requires Valid()
      modifies this, buffer
      ensures Valid() && (buffer == old(buffer) || fresh(buffer))
      ensures (State(), r) == Put(old(State()), data)
    {
      if error != 0 { return error; }
      freeze := false;
      FlushBuffer();
      var rest, failed := SendDirect(data);
      if failed { return EINVAL; }
      Append(rest);
      return |data|;
    }

    /** `qemu_fflush` with the bytes collected so far. */
    method WriteCollected(data: seq<Byte>)
      requires Valid()
      modifies this, buffer
      ensures Valid() && (buffer == old(buffer) || fresh(buffer))
      ensures State() == WriteOut(old(State()), data)
    {
      if data != [] {
        var len := PutBuffer(data);
        if len <= 0 { error := EINVAL; }
      }
    }

    /** The sending loop of a write. */
    method SendDirect(data: seq<Byte>) returns (rest: seq<Byte>, failed: bool)
      requires Valid()
      modifies this`freeze, this`xfer, this`error, this`delivered, this`replies
      ensures Valid() && Outcome(State(), failed, rest) == Direct(old(State()), data)
    {
      ghost var start := State();
      rest, failed := data, false;
      while !freeze && rest != []
        invariant Valid() && !failed
        invariant Direct(State(), rest) == Direct(start, data)
        decreases |rest|
      {
        if xfer > limit { break; }
        var r := Offer(rest);
        if r == EAGAIN {
          freeze := true;
          break;
        }
        if r <= 0 {
          error, failed := r, true;
          break;
        }
        rest, xfer := rest[r..], xfer + r;
      }
    }

    /** The timer callback; on a file in error it only closes. */
    method RateTick()
      requires Valid()
      modifies this, buffer
      ensures Valid() && buffer == old(buffer) && State() == Tick(old(State()))
    {
      if error != 0 || freeze { return; }
      xfer := 0;
      FlushBuffer();
    }

    /** The flushing loop of a close, as long as the backend has an answer. */
    method CloseLoop()
      requires Valid()
      modifies this, buffer
      ensures Valid() && buffer == old(buffer) && State() == Closing(old(State()))
    {
      ghost var start := State();
      while error == 0 && size != 0 && replies != []
        invariant Valid() && buffer == old(buffer) && Closing(State()) == Closing(start)
        decreases |replies|
      {
        FlushBuffer();
      }
    }
  }

  method CopyArray(from: array<Byte>, to: array<Byte>, n: nat)
    requires n <= from.Length && n <= to.Length && from != to
    modifies to
    ensures to[..n] == from[..n] && to[n..] == old(to[n..])
  {
    for i := 0 to n
      invariant to[..i] == from[..i] && to[n..] == old(to[n..])
    {
      to[i] := from[i];
    }
  }

  method CopySeq(data: seq<Byte>, to: array<Byte>, at: nat)
    requires at + |data| <= to.Length
    modifies to
    ensures to[..at] == old(to[..at]) && to[at..at + |data|] == data
  {
    for i := 0 to |data|
      invariant to[..at] == old(to[..at]) && to[at..at + i] == data[..i]
    {
      to[at + i] := data[i];
    }
  }

  /** Moves `a[from..to]` to the front. */
  method MoveDown(a: array<Byte>, from: nat, to: nat)
    requires from <= to <= a.Length
    modifies a
    ensures a[..to - from] == old(a[from..to])
  {
    for i := 0 to to - from
      invariant a[..i] == old(a[from..from + i])
      invariant forall j :: from + i <= j < to ==> a[j] == old(a[j])
    {
      ghost var done := a[..i];
      a[i] := a[from + i];
      assert a[..i] == done && a[..i + 1] == done + [old(a[from + i])];
      assert old(a[from..from + i + 1]) == old(a[from..from + i]) + [old(a[from + i])];
    }
  }
}
