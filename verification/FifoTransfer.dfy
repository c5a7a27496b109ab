/** One writer and one reader of a FIFO, both with deadlines: the writer hands its payload over in parts, the reader
    reads up to the end that it sees when the writer has closed. Every interleaving of the two is a run. */
module FifoTransfer {
  import opened Options

  type Bytes = seq<bv8>

  /** `offset` is how much of the payload has been accepted. */
  datatype Writer = Opening | Writing | Raised | Returned(ok: bool)

  datatype Reader = Waiting | Reading | Refused | Got(result: Bytes) | GaveUp

  datatype State = State(payload: Bytes, maxBytes: Option<nat>, writer: Writer, offset: nat, buffer: Bytes,
                         reader: Reader, total: Bytes, writerSeen: bool)

  function Initial(payload: Bytes, maxBytes: Option<nat>): State {
    State(payload, maxBytes, Opening, 0, [], Waiting, [], false)
  }

  datatype Step =
    // the writer: a write accepts `n` bytes, or meets a reader that is gone; the deadline can pass at any time
    | OpenForWriting | Write(n: nat) | BrokenPipe | Finish | WriterTimeout
    // the reader: a read takes `n` bytes, or finds the end
    | OpenForReading | Read(n: nat) | ReadEnd | ReaderTimeout

  predicate IsReading(st: State) { st.reader == Reading }

  /** Opening without a reader fails with ENXIO, reading from an empty FIFO with a writer with EAGAIN; both are retried
      and are no steps here. */
  predicate Enabled(st: State, step: Step) {
    match step
    case OpenForWriting => st.writer == Opening && st.payload != [] && IsReading(st)
    case Write(n) => st.writer == Writing && IsReading(st) && 0 < n <= |st.payload| - st.offset
    case BrokenPipe => st.writer == Writing && st.offset < |st.payload| && !IsReading(st)
    case Finish => st.writer in {Opening, Writing} && st.offset == |st.payload|
    case WriterTimeout => st.writer in {Opening, Writing}
    case OpenForReading => st.reader == Waiting
    case Read(n) => IsReading(st) && 0 < n <= |st.buffer|
    case ReadEnd => IsReading(st) && st.buffer == [] && st.writer != Writing && st.writerSeen
    case ReaderTimeout => st.reader in {Waiting, Reading}
  }

  function Apply(st: State, step: Step): State
    requires Enabled(st, step) && st.offset <= |st.payload|
  {
    match step
    case OpenForWriting => st.(writer := Writing)
    case Write(n) =>
      st.(offset := st.offset + n, buffer := st.buffer + st.payload[st.offset..st.offset + n])
    case BrokenPipe => st.(writer := Raised)
    case Finish => st.(writer := Returned(true))
    case WriterTimeout => st.(writer := Returned(st.offset == |st.payload|))
    case OpenForReading => st.(reader := Reading)
    case Read(n) =>
      var total := st.total + st.buffer[..n];
      if st.maxBytes.Some? && |total| > st.maxBytes.value then st.(reader := Refused, writerSeen := true)
      else st.(total := total, buffer := st.buffer[n..], writerSeen := true)
    case ReadEnd => st.(reader := Got(st.total))
    case ReaderTimeout => st.(reader := GaveUp)
  }

  ghost predicate Inv(st: State) {
    && st.offset <= |st.payload|
    && (st.reader != Refused ==> st.total + st.buffer == st.payload[..st.offset])
    && (st.writer == Opening ==> st.offset == 0 && st.buffer == [])
    && (st.writer.Returned? ==> (st.writer.ok <==> st.offset == |st.payload|))
    && (st.writer == Raised ==> !IsReading(st) && st.reader != Waiting && st.offset < |st.payload|)
    && (st.writer == Writing ==> st.payload != [])
    && (st.reader == Refused ==> st.maxBytes.Some? && st.writerSeen)
    && (st.offset > 0 || st.writer == Writing ==> st.reader != Waiting)
    && (st.writerSeen && st.reader != Refused ==> st.total != [])
    && (st.maxBytes.Some? ==> |st.total| <= st.maxBytes.value)
    && (st.reader.Got? ==> st.reader.result == st.total && st.total != [] && st.buffer == [] && st.writer.Returned?)
  }

  lemma WriteKeepsInv(st: State, n: nat)
    requires Inv(st) && Enabled(st, Write(n))
    ensures Inv(Apply(st, Write(n)))
  {
    var more := st.payload[st.offset..st.offset + n];
    assert st.payload[..st.offset + n] == st.payload[..st.offset] + more;
    assert st.total + (st.buffer + more) == st.total + st.buffer + more;
  }

  lemma ReadKeepsInv(st: State, n: nat)
    requires Inv(st) && Enabled(st, Read(n))
    ensures Inv(Apply(st, Read(n)))
  {
    assert st.buffer == st.buffer[..n] + st.buffer[n..];
    assert st.total + st.buffer[..n] + st.buffer[n..] == st.total + (st.buffer[..n] + st.buffer[n..]);
  }

  lemma StepKeepsInv(st: State, step: Step)
    requires Inv(st) && Enabled(st, step)
    ensures Inv(Apply(st, step))
  {
    if step.Write? {
      WriteKeepsInv(st, step.n);
    } else if step.Read? {
      ReadKeepsInv(st, step.n);
    }
  }

  ghost predicate IsRun(st: State, steps: seq<Step>)
    decreases |steps|
  {
    steps == [] || (Enabled(st, steps[0]) && st.offset <= |st.payload| && IsRun(Apply(st, steps[0]), steps[1..]))
  }

  ghost function Final(st: State, steps: seq<Step>): State
    requires IsRun(st, steps)
    decreases |steps|
  {
    if steps == [] then st else Final(Apply(st, steps[0]), steps[1..])
  }

  lemma {:induction false} RunKeepsInv(st: State, steps: seq<Step>)
    requires Inv(st) && IsRun(st, steps)
    ensures Inv(Final(st, steps)) && Final(st, steps).payload == st.payload
    ensures Final(st, steps).maxBytes == st.maxBytes
    decreases |steps|
  {
    hide Inv, Enabled;
    if steps != [] {
      StepKeepsInv(st, steps[0]);
      RunKeepsInv(Apply(st, steps[0]), steps[1..]);
    }
  }

  /** The deadline of the writer passes when a part of the payload has been accepted, and not all of it. */
  predicate HalfWay(st: State, step: Step) { step == WriterTimeout && 0 < st.offset < |st.payload| }

  ghost predicate StopsHalfWay(st: State, steps: seq<Step>)
    requires IsRun(st, steps)
    decreases |steps|
  {
    steps != [] && (HalfWay(st, steps[0]) || StopsHalfWay(Apply(st, steps[0]), steps[1..]))
  }

  predicate Torn(st: State) { st.writer == Returned(false) && st.offset > 0 }

  lemma StepTears(st: State, step: Step)
    requires Inv(st) && Enabled(st, step)
    ensures Torn(Apply(st, step)) <==> Torn(st) || HalfWay(st, step)
  {}

  lemma {:induction false} RunTears(st: State, steps: seq<Step>)
    requires Inv(st) && IsRun(st, steps)
    ensures Torn(Final(st, steps)) <==> Torn(st) || StopsHalfWay(st, steps)
    decreases |steps|
  {
    hide Inv, Enabled, HalfWay, Torn;
    if steps != [] {
      StepKeepsInv(st, steps[0]);
      StepTears(st, steps[0]);
      RunTears(Apply(st, steps[0]), steps[1..]);
    }
  }

  /** What a reader gets is a nonempty beginning of the payload, within the limit; it is the whole payload if and only
      if the writer's deadline did not pass half-way, which is when the writer reports success. A deadline that passes
      half-way thus gives the reader a torn result as a good one: only the writer knows. */
  lemma ReadsWhatWasWritten(payload: Bytes, maxBytes: Option<nat>, steps: seq<Step>)
    requires IsRun(Initial(payload, maxBytes), steps)
    ensures var end := Final(Initial(payload, maxBytes), steps);
            end.reader.Got? ==>
              && end.writer.Returned?
              && [] != end.reader.result <= payload
              && (maxBytes.Some? ==> |end.reader.result| <= maxBytes.value)
              && (end.reader.result == payload <==> !StopsHalfWay(Initial(payload, maxBytes), steps))
              && (end.reader.result == payload <==> end.writer.ok)
  {
    hide IsRun, Final, StopsHalfWay;
    RunKeepsInv(Initial(payload, maxBytes), steps);
    RunTears(Initial(payload, maxBytes), steps);
    var end := Final(Initial(payload, maxBytes), steps);
    assert end.total + [] == end.total;
    assert payload[..|payload|] == payload;
  }

  lemma TornExample()
    ensures var steps := [OpenForReading, OpenForWriting, Write(1), WriterTimeout, Read(1), ReadEnd];
            && IsRun(Initial([1, 2], None), steps)
            && Final(Initial([1, 2], None), steps).reader == Got([1])
            && Final(Initial([1, 2], None), steps).writer == Returned(false)
  {
    hide IsRun, Final;
    var payload: Bytes := [1, 2];
    var written := State(payload, None, Writing, 1, [1], Reading, [], false);
    TornTail(written);
    var atWrite := State(payload, None, Writing, 0, [], Reading, [], false);
    var fromWrite := [Write(1), WriterTimeout, Read(1), ReadEnd];
    assert Apply(atWrite, Write(1)) == written;
    First(atWrite, Write(1), [WriterTimeout, Read(1), ReadEnd], fromWrite);
    var atReader := Apply(Initial(payload, None), OpenForReading);
    First(atReader, OpenForWriting, fromWrite, [OpenForWriting] + fromWrite);
    var steps := [OpenForReading, OpenForWriting, Write(1), WriterTimeout, Read(1), ReadEnd];
    First(Initial(payload, None), OpenForReading, [OpenForWriting] + fromWrite, steps);
  }

  lemma TornTail(written: State)
    requires written == State([1, 2], None, Writing, 1, [1], Reading, [], false)
    ensures IsRun(written, [WriterTimeout, Read(1), ReadEnd])
    ensures var end := Final(written, [WriterTimeout, Read(1), ReadEnd]);
            end.reader == Got([1]) && end.writer == Returned(false)
  {
    hide IsRun, Final;
    var atEnd := State([1, 2], None, Returned(false), 1, [], Reading, [1], true);
    NoSteps(Apply(atEnd, ReadEnd));
    First(atEnd, ReadEnd, [], [ReadEnd]);
    assert Apply(Apply(written, WriterTimeout), Read(1)) == atEnd;
    First(Apply(written, WriterTimeout), Read(1), [ReadEnd], [Read(1), ReadEnd]);
    First(written, WriterTimeout, [Read(1), ReadEnd], [WriterTimeout, Read(1), ReadEnd]);
  }

  lemma NoSteps(st: State)
    ensures IsRun(st, []) && Final(st, []) == st
  {}

  lemma First(st: State, step: Step, rest: seq<Step>, steps: seq<Step>)
    requires Enabled(st, step) && st.offset <= |st.payload| && IsRun(Apply(st, step), rest)
    requires steps == [step] + rest
    ensures IsRun(st, steps) && Final(st, steps) == Final(Apply(st, step), rest)
  {
    assert steps[1..] == rest;
  }

  // ---- Both come to an end ------------------------------------------------------------------------------------

  predicate IsWriterStep(step: Step) {
    step.OpenForWriting? || step.Write? || step.BrokenPipe? || step.Finish? || step.WriterTimeout?
  }

  predicate WriterHasEnded(st: State) { st.writer == Raised || st.writer.Returned? }

  predicate ReaderHasEnded(st: State) { st.reader == Refused || st.reader.Got? || st.reader == GaveUp }

  /** How much is left for the writer and for the reader to do. */
  function Ahead(st: State): int {
    (if WriterHasEnded(st) then 0 else 2 * (|st.payload| - st.offset) + if st.writer == Opening then 2 else 1)
    + (if ReaderHasEnded(st) then 0 else |st.buffer| + if st.reader == Waiting then 2 else 1)
  }

  /** Every step of the writer or of the reader leaves less to do, and each of them ends by itself at any time. */
  lemma StepGetsNearer(st: State, step: Step)
    requires Inv(st) && Enabled(st, step)
    ensures 0 <= Ahead(Apply(st, step)) < Ahead(st)
    ensures !WriterHasEnded(st) ==> Enabled(st, WriterTimeout) && WriterHasEnded(Apply(st, WriterTimeout))
    ensures !ReaderHasEnded(st) ==> Enabled(st, ReaderTimeout) && ReaderHasEnded(Apply(st, ReaderTimeout))
  {}

  /** Bytes are accepted only while somebody reads; a writer that has more to write to nobody is told so. */
  lemma NobodyReads(st: State, step: Step)
    requires Inv(st) && Enabled(st, step) && !IsReading(st)
    ensures Apply(st, step).offset == st.offset
    ensures st.writer == Writing && st.offset < |st.payload| && IsWriterStep(step) ==>
              Apply(st, step).writer == if step == WriterTimeout then Returned(false) else Raised
    ensures step == BrokenPipe ==> Apply(st, step).writer == Raised
  {}

  /** A reader refuses exactly what goes beyond its limit. */
  lemma RefusesIff(st: State, n: nat)
    requires Inv(st) && Enabled(st, Read(n))
    ensures Apply(st, Read(n)).reader == Refused <==> st.maxBytes.Some? && |st.total| + n > st.maxBytes.value
    ensures Apply(st, Read(n)).reader != Refused ==> Apply(st, Read(n)).total == st.total + st.buffer[..n]
  {}

  /** An empty payload is written without opening the pipe. */
  lemma EmptyIsNothing(maxBytes: Option<nat>, steps: seq<Step>)
    requires IsRun(Initial([], maxBytes), steps)
    ensures Final(Initial([], maxBytes), steps).writer != Writing
  {
    hide IsRun, Final;
    RunKeepsInv(Initial([], maxBytes), steps);
  }

  /** Every payload within the limit can be handed over whole. */
  lemma WholeIsPossible(payload: Bytes, maxBytes: Option<nat>)
    requires payload != [] && (maxBytes.Some? ==> |payload| <= maxBytes.value)
    ensures var n := |payload|;
            var steps := [OpenForReading, OpenForWriting, Write(n), Finish, Read(n), ReadEnd];
            && IsRun(Initial(payload, maxBytes), steps)
            && Final(Initial(payload, maxBytes), steps).reader == Got(payload)
            && Final(Initial(payload, maxBytes), steps).writer == Returned(true)
  {
    hide IsRun, Final;
    var n := |payload|;
    var s0 := Initial(payload, maxBytes);
    var s1 := Apply(s0, OpenForReading);
    var s2 := Apply(s1, OpenForWriting);
    var s3 := Apply(s2, Write(n));
    assert payload[0..n] == payload && [] + payload == payload && payload[..n] == payload;
    var s4 := Apply(s3, Finish);
    assert s4.buffer == payload;
    var s5 := Apply(s4, Read(n));
    assert s5.total == payload && s5.buffer == [];
    NoSteps(Apply(s5, ReadEnd));
    First(s5, ReadEnd, [], [ReadEnd]);
    First(s4, Read(n), [ReadEnd], [Read(n), ReadEnd]);
    First(s3, Finish, [Read(n), ReadEnd], [Finish, Read(n), ReadEnd]);
    First(s2, Write(n), [Finish, Read(n), ReadEnd], [Write(n), Finish, Read(n), ReadEnd]);
    First(s1, OpenForWriting, [Write(n), Finish, Read(n), ReadEnd],
          [OpenForWriting, Write(n), Finish, Read(n), ReadEnd]);
    First(s0, OpenForReading, [OpenForWriting, Write(n), Finish, Read(n), ReadEnd],
          [OpenForReading, OpenForWriting, Write(n), Finish, Read(n), ReadEnd]);
  }
}
