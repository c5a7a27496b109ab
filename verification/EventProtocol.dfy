/** The directory-event protocol: batches of journaled events as JSON Lines, and the reader that validates them.
    JSON text itself is a parameter with the few laws that the protocol leans on. */
module EventProtocol {
  import opened Options
  import opened Strings

  datatype Identity = Identity(device: int, inode: int, size: int, mtime: int)

  datatype Event =
    | Ready(sequence: int, path: string, identity: Identity, requestId: string)
    | Terminated(sequence: int, reason: string, requestId: string, generated: int, delivered: int, undelivered: int)

  /** A member of a batch as the reader finds it: the sequence is None unless it is an integer. */
  datatype Item = NonObject | Object(sequence: Option<int>, event: Event)

  datatype Record =
    | Malformed
    | TransportClosed
    | Envelope(first: Option<int>, last: Option<int>, items: seq<Item>)

  datatype Json = Json(encode: seq<Event> -> string, decode: string -> Option<Record>)

  function ItemOf(e: Event): Item { Object(Some(e.sequence), e) }

  function Items(batch: seq<Event>): (items: seq<Item>)
    ensures |items| == |batch| && forall i | 0 <= i < |batch| :: items[i] == ItemOf(batch[i])
  {
    seq(|batch|, i requires 0 <= i < |batch| => ItemOf(batch[i]))
  }

  function EnvelopeOf(batch: seq<Event>): Record
    requires batch != []
  {
    Envelope(Some(batch[0].sequence), Some(batch[|batch| - 1].sequence), Items(batch))
  }

  predicate IsBlank(s: string) { forall i | 0 <= i < |s| :: IsPythonSpace(s[i]) }

  /** One line of text per batch, which reads back as its envelope, with or without its line end, and which is not
      JSON when cut short. */
  ghost predicate Lawful(json: Json) {
    forall b | b != [] ::
      var text := json.encode(b);
      && text != "" && !IsPythonSpace(text[0]) && '\n' !in text
      && json.decode(text) == Some(EnvelopeOf(b))
      && json.decode(text + "\n") == Some(EnvelopeOf(b))
      && forall k | 0 < k < |text| :: json.decode(text[..k]) == None
  }

  // ---- The reader -------------------------------------------------------------------------------------------

  /** What has been yielded, and whether the reader raised an error. */
  datatype Reading = Reading(events: seq<Event>, previous: Option<int>, failed: bool)

  function Yield(r: Reading, item: Item): Reading {
    if r.failed then r
    else if item.NonObject? || item.sequence.None? || (r.previous.Some? && item.sequence.value <= r.previous.value) then
      r.(failed := true)
    else Reading(r.events + [item.event], item.sequence, false)
  }

  function ReadItems(r: Reading, items: seq<Item>): Reading
    decreases |items|
  {
    if items == [] then r else ReadItems(Yield(r, items[0]), items[1..])
  }

  predicate Acceptable(record: Record) {
    record.Envelope? && record.items != [] && (forall item | item in record.items :: item.Object?)
    && record.first == record.items[0].sequence && record.last == record.items[|record.items| - 1].sequence
  }

  function ReadLine(json: Json, r: Reading, line: string): Reading {
    if r.failed || IsBlank(line) then r
    else
      match json.decode(line)
      case None => r.(failed := true)
      case Some(record) =>
        if record.TransportClosed? then r
        else if !Acceptable(record) then r.(failed := true)
        else ReadItems(r, record.items)
  }

  function ReadLines(json: Json, r: Reading, lines: seq<string>): Reading
    decreases |lines|
  {
    if lines == [] then r else ReadLines(json, ReadLine(json, r, lines[0]), lines[1..])
  }

  const NOTHING: Reading := Reading([], None, false)

  /** The lines of a stream with their ends; the last one may lack it. */
  function FileLines(partial: string, stream: string): seq<string>
    decreases |stream|
  {
    if stream == "" then if partial == "" then [] else [partial]
    else if stream[0] == '\n' then [partial + "\n"] + FileLines("", stream[1..])
    else FileLines(partial + [stream[0]], stream[1..])
  }

  /** What a reader makes of the bytes of one connection. */
  function Read(json: Json, bytes: string): Reading { ReadLines(json, NOTHING, FileLines("", bytes)) }

  /** The generator, run to its end or to its error: it yields events one by one and remembers the last sequence. */
  method IterDirectoryEventStream(json: Json, stream: seq<string>) returns (yielded: seq<Event>, failed: bool)
    ensures yielded == ReadLines(json, NOTHING, stream).events
    ensures failed == ReadLines(json, NOTHING, stream).failed
    ensures forall i, j | 0 <= i < j < |yielded| && IsHonest(json) :: yielded[i].sequence < yielded[j].sequence
  {
    yielded, failed := [], false;
    var previousSequence: Option<int> := None;
    var n := 0;
    while n < |stream|
      invariant 0 <= n <= |stream| && !failed
      invariant ReadLines(json, Reading(yielded, previousSequence, false), stream[n..])
             == ReadLines(json, NOTHING, stream)
      invariant IsHonest(json) ==> Increasing(Reading(yielded, previousSequence, false))
    {
      var rawLine := stream[n];
      n := n + 1;
      assert stream[n - 1..][1..] == stream[n..];
      if IsBlank(rawLine) {
        continue;
      }
      var decoded := json.decode(rawLine);
      if decoded.None? {
        FailedStays(json, Reading(yielded, previousSequence, true), stream[n..]);
        return yielded, true;
      }
      var record := decoded.value;
      if record.TransportClosed? {
        continue;
      }
      if !Acceptable(record) {
        FailedStays(json, Reading(yielded, previousSequence, true), stream[n..]);
        return yielded, true;
      }
      ghost var before := Reading(yielded, previousSequence, false);
      var i := 0;
      while i < |record.items|
        invariant 0 <= i <= |record.items|
        invariant ReadItems(Reading(yielded, previousSequence, false), record.items[i..])
               == ReadItems(before, record.items)
        invariant IsHonest(json) ==> Increasing(Reading(yielded, previousSequence, false))
      {
        var item := record.items[i];
        assert record.items[i..][0] == item && record.items[i..][1..] == record.items[i + 1..];
        if item.sequence.None? || (previousSequence.Some? && item.sequence.value <= previousSequence.value) {
          FailedItemsStay(Reading(yielded, previousSequence, true), record.items[i + 1..]);
          FailedStays(json, Reading(yielded, previousSequence, true), stream[n..]);
          return yielded, true;
        }
        previousSequence := item.sequence;
        yielded := yielded + [item.event];
        i := i + 1;
      }
    }
  }

  lemma {:induction false} FailedItemsStay(r: Reading, items: seq<Item>)
    requires r.failed
    ensures ReadItems(r, items) == r
    decreases |items|
  {
    if items != [] {
      FailedItemsStay(r, items[1..]);
    }
  }

  lemma {:induction false} FailedStays(json: Json, r: Reading, lines: seq<string>)
    requires r.failed
    ensures ReadLines(json, r, lines) == r
    decreases |lines|
  {
    if lines != [] {
      FailedStays(json, r, lines[1..]);
    }
  }

  /** An event is the object that the reader took its sequence from. */
  ghost predicate IsHonest(json: Json) {
    forall line, record | json.decode(line) == Some(record) && record.Envelope? ::
      forall item | item in record.items && item.Object? && item.sequence.Some? ::
        item.event.sequence == item.sequence.value
  }

  /** Sequences strictly increase up to the one remembered. */
  ghost predicate Increasing(r: Reading) {
    && (forall i, j | 0 <= i < j < |r.events| :: r.events[i].sequence < r.events[j].sequence)
    && (r.events != [] ==> r.previous == Some(r.events[|r.events| - 1].sequence))
  }

  // ---- What a reader accepts ----------------------------------------------------------------------------------

  /** The line is blank, a notice that the transport was closed, or a batch: not empty, of objects with integer
      sequences, the first and the last of which are announced. */
  ghost predicate IsGoodLine(json: Json, line: string) {
    || IsBlank(line)
    || json.decode(line) == Some(TransportClosed)
    || (json.decode(line).Some? && json.decode(line).value.Envelope? && IsGoodBatch(json.decode(line).value))
  }

  predicate IsGoodBatch(record: Record)
    requires record.Envelope?
  {
    && |record.items| > 0
    && (forall i | 0 <= i < |record.items| :: record.items[i].Object? && record.items[i].sequence.Some?)
    && record.items[0].sequence == record.first && record.items[|record.items| - 1].sequence == record.last
  }

  /** The members of the batch in a line. */
  function Members(json: Json, line: string): seq<Item> {
    if IsBlank(line) then []
    else
      match json.decode(line)
      case Some(Envelope(_, _, items)) => items
      case _ => []
  }

  function AllMembers(json: Json, lines: seq<string>): seq<Item>
    decreases |lines|
  {
    if lines == [] then [] else Members(json, lines[0]) + AllMembers(json, lines[1..])
  }

  /** The sequences are integers and increase, from the one before on. */
  predicate Increase(previous: Option<int>, items: seq<Item>)
    decreases |items|
  {
    items == []
    || (items[0].Object? && items[0].sequence.Some?
        && (previous.Some? ==> previous.value < items[0].sequence.value) && Increase(items[0].sequence, items[1..]))
  }

  function EventsOf(items: seq<Item>): seq<Event>
    requires forall item | item in items :: item.Object?
    decreases |items|
  {
    if items == [] then [] else [items[0].event] + EventsOf(items[1..])
  }

  lemma {:induction false} IncreaseIff(previous: Option<int>, items: seq<Item>)
    ensures Increase(previous, items) <==>
              && (forall i | 0 <= i < |items| :: items[i].Object? && items[i].sequence.Some?
                    && (previous.Some? ==> previous.value < items[i].sequence.value))
              && forall i, j | 0 <= i < j < |items| && items[i].Object? && items[j].Object?
                    && items[i].sequence.Some? && items[j].sequence.Some? ::
                   items[i].sequence.value < items[j].sequence.value
    decreases |items|
  {
    if items != [] && items[0].Object? && items[0].sequence.Some? {
      IncreaseIff(items[0].sequence, items[1..]);
      assert forall i | 0 < i < |items| :: items[i] == items[1..][i - 1];
      assert forall i | 0 <= i < |items| - 1 :: items[1..][i] == items[i + 1];
    }
  }

  /** The sequence of the last member, or the one before when there is none. */
  function LastSequence(previous: Option<int>, items: seq<Item>): Option<int> {
    if items == [] || items[|items| - 1].NonObject? then previous else items[|items| - 1].sequence
  }

  lemma LastOfTail(previous: Option<int>, a: seq<Item>)
    requires a != [] && a[0].Object?
    ensures Increase(a[0].sequence, a[1..]) ==> LastSequence(previous, a) == LastSequence(a[0].sequence, a[1..])
  {
    if a[1..] != [] && Increase(a[0].sequence, a[1..]) {
      IncreaseObjects(a[0].sequence, a[1..]);
      assert a[1..][|a| - 2] in a[1..];
    }
  }

  lemma {:induction false} IncreaseConcat(previous: Option<int>, a: seq<Item>, b: seq<Item>)
    ensures Increase(previous, a + b)
       <==> Increase(previous, a) && Increase(LastSequence(previous, a), b)
    decreases |a|
  {
    if a == [] {
      assert a + b == b;
    } else {
      assert (a + b)[0] == a[0] && (a + b)[1..] == a[1..] + b;
      if a[0].Object? {
        IncreaseConcat(a[0].sequence, a[1..], b);
        LastOfTail(previous, a);
      }
    }
  }

  lemma {:induction false} EventsConcat(a: seq<Item>, b: seq<Item>)
    requires forall item | item in a + b :: item.Object?
    ensures (forall item | item in a :: item.Object?) && (forall item | item in b :: item.Object?)
    ensures EventsOf(a + b) == EventsOf(a) + EventsOf(b)
    decreases |a|
  {
    assert (forall item | item in a :: item in a + b) && (forall item | item in b :: item in a + b);
    if a == [] {
      assert a + b == b;
    } else {
      assert (a + b)[0] == a[0] && (a + b)[1..] == a[1..] + b;
      EventsConcat(a[1..], b);
    }
  }

  lemma {:induction false} IncreaseObjects(previous: Option<int>, items: seq<Item>)
    requires Increase(previous, items)
    ensures forall item | item in items :: item.Object? && item.sequence.Some?
    decreases |items|
  {
    if items != [] {
      IncreaseObjects(items[0].sequence, items[1..]);
      assert items == [items[0]] + items[1..];
    }
  }

  /** Members are yielded in order as long as their sequences increase. */
  lemma {:induction false} ReadItemsIff(r: Reading, items: seq<Item>)
    requires !r.failed
    ensures var end := ReadItems(r, items);
            && (!end.failed <==> Increase(r.previous, items))
            && (!end.failed ==>
                  && (forall item | item in items :: item.Object?)
                  && end.events == r.events + EventsOf(items)
                  && end.previous == LastSequence(r.previous, items))
    decreases |items|
  {
    if items != [] {
      var next := Yield(r, items[0]);
      if next.failed {
        FailedItemsStay(next, items[1..]);
      } else {
        ReadItemsIff(next, items[1..]);
        LastOfTail(r.previous, items);
        assert items == [items[0]] + items[1..];
        if !ReadItems(r, items).failed {
          var event, rest := items[0].event, EventsOf(items[1..]);
          assert r.events + [event] + rest == r.events + ([event] + rest);
        }
      }
    } else {
      assert r.events + [] == r.events;
    }
  }

  lemma ReadLineIff(json: Json, r: Reading, line: string)
    requires !r.failed
    ensures var end, items := ReadLine(json, r, line), Members(json, line);
            && (!end.failed <==> IsGoodLine(json, line) && Increase(r.previous, items))
            && (!end.failed ==>
                  && (forall item | item in items :: item.Object?)
                  && end.events == r.events + EventsOf(items)
                  && end.previous == LastSequence(r.previous, items))
  {
    var items := Members(json, line);
    assert r.events + [] == r.events;
    ReadItemsIff(r, items);
    if Increase(r.previous, items) {
      IncreaseObjects(r.previous, items);
    }
    assert forall i | 0 <= i < |items| :: items[i] in items;
  }

  /** The reader comes to the end of the lines if and only if every line is good and the sequences increase over all
      batches, and then it has yielded their events in order. */
  lemma {:induction false} ReadsIff(json: Json, r: Reading, lines: seq<string>)
    requires !r.failed
    ensures var end, items := ReadLines(json, r, lines), AllMembers(json, lines);
            && (!end.failed <==> (forall line | line in lines :: IsGoodLine(json, line)) && Increase(r.previous, items))
            && (!end.failed ==>
                  (forall item | item in items :: item.Object?) && end.events == r.events + EventsOf(items))
    decreases |lines|
  {
    hide ReadLine, IsGoodLine, Members, Increase;
    if lines == [] {
      assert r.events + [] == r.events;
      NoneIncrease(r.previous);
    } else {
      var next, items, rest := ReadLine(json, r, lines[0]), Members(json, lines[0]), AllMembers(json, lines[1..]);
      assert lines == [lines[0]] + lines[1..];
      ReadLineIff(json, r, lines[0]);
      IncreaseConcat(r.previous, items, rest);
      if next.failed {
        FailedStays(json, next, lines[1..]);
      } else {
        ReadsIff(json, next, lines[1..]);
        if !ReadLines(json, next, lines[1..]).failed {
          EventsConcat(items, rest);
          assert r.events + EventsOf(items) + EventsOf(rest) == r.events + (EventsOf(items) + EventsOf(rest));
        }
      }
    }
  }

  lemma NoneIncrease(previous: Option<int>)
    ensures Increase(previous, [])
  {}

  // ---- Reading back what a writer wrote ---------------------------------------------------------------------

  function Frame(json: Json, batch: seq<Event>): string { json.encode(batch) + "\n" }

  function Frames(json: Json, batches: seq<seq<Event>>): string {
    if batches == [] then "" else Frames(json, batches[..|batches| - 1]) + Frame(json, batches[|batches| - 1])
  }

  function Flatten(batches: seq<seq<Event>>): seq<Event> {
    if batches == [] then [] else Flatten(batches[..|batches| - 1]) + batches[|batches| - 1]
  }

  ghost predicate StrictlyIncreasing(events: seq<Event>) {
    forall i, j | 0 <= i < j < |events| :: events[i].sequence < events[j].sequence
  }

  lemma {:induction false} LinesConcat(partial: string, a: string, b: string)
    requires a != "" ==> a[|a| - 1] == '\n'
    requires a == "" ==> partial == ""
    ensures FileLines(partial, a + b) == FileLines(partial, a) + FileLines("", b)
    decreases |a|
  {
    if a == "" {
      assert a + b == b;
    } else {
      assert (a + b)[0] == a[0] && (a + b)[1..] == a[1..] + b;
      LinesConcat(if a[0] == '\n' then "" else partial + [a[0]], a[1..], b);
    }
  }

  lemma {:induction false} LinesOfText(partial: string, text: string)
    requires '\n' !in text
    ensures FileLines(partial, text) == if partial + text == "" then [] else [partial + text]
    ensures FileLines(partial, text + "\n") == [partial + text + "\n"]
    decreases |text|
  {
    if text == "" {
      assert (text + "\n")[1..] == "" && partial + text == partial;
    } else {
      assert text[0] in text && (text + "\n")[0] == text[0] && (text + "\n")[1..] == text[1..] + "\n";
      LinesOfText(partial + [text[0]], text[1..]);
      assert partial + [text[0]] + text[1..] == partial + text;
    }
  }

  lemma {:induction false} ReadLinesConcat(json: Json, r: Reading, a: seq<string>, b: seq<string>)
    ensures ReadLines(json, r, a + b) == ReadLines(json, ReadLines(json, r, a), b)
    decreases |a|
  {
    if a == [] {
      assert a + b == b;
    } else {
      assert (a + b)[0] == a[0] && (a + b)[1..] == a[1..] + b;
      ReadLinesConcat(json, ReadLine(json, r, a[0]), a[1..], b);
    }
  }

  /** The events of `batch` continue what was read so far. */
  ghost predicate Continues(r: Reading, batch: seq<Event>) {
    !r.failed && Increasing(r) && StrictlyIncreasing(r.events + batch) && (r.events == [] ==> r.previous == None)
  }

  lemma {:induction false} ReadItemsOf(r: Reading, batch: seq<Event>)
    requires Continues(r, batch)
    ensures var r' := ReadItems(r, Items(batch));
            r'.events == r.events + batch && !r'.failed && Increasing(r') && (r'.events == [] ==> r'.previous == None)
    decreases |batch|
  {
    if batch == [] {
      assert r.events + batch == r.events;
    } else {
      var e := batch[0];
      var events := r.events + batch;
      assert events[|r.events|] == e;
      assert r.events != [] ==> events[|r.events| - 1] == r.events[|r.events| - 1];
      var next := Yield(r, ItemOf(e));
      assert next == Reading(r.events + [e], Some(e.sequence), false);
      assert r.events + [e] + batch[1..] == events;
      forall i, j | 0 <= i < j < |next.events| ensures next.events[i].sequence < next.events[j].sequence {
        assert events[i] == next.events[i] && events[j] == next.events[j];
      }
      ReadItemsOf(next, batch[1..]);
      assert Items(batch)[1..] == Items(batch[1..]);
    }
  }

  lemma ReadBatchLine(json: Json, r: Reading, batch: seq<Event>, line: string)
    requires Lawful(json) && batch != [] && Continues(r, batch)
    requires line == json.encode(batch) || line == Frame(json, batch)
    ensures var r' := ReadLine(json, r, line);
            r'.events == r.events + batch && !r'.failed && Increasing(r') && r'.events != []
  {
    assert !IsPythonSpace(line[0]);
    var record := EnvelopeOf(batch);
    assert record.items[0] == ItemOf(batch[0]);
    forall item | item in record.items ensures item.Object? {
      var i :| 0 <= i < |record.items| && record.items[i] == item;
      assert item == ItemOf(batch[i]);
    }
    ReadItemsOf(r, batch);
  }

  lemma FramesEnd(json: Json, batches: seq<seq<Event>>)
    ensures batches != [] ==> |Frames(json, batches)| > 0 && Frames(json, batches)[|Frames(json, batches)| - 1] == '\n'
  {}

  lemma PrefixIncreasing(a: seq<Event>, b: seq<Event>)
    requires StrictlyIncreasing(a + b)
    ensures StrictlyIncreasing(a)
  {
    forall i, j | 0 <= i < j < |a| ensures a[i].sequence < a[j].sequence {
      assert (a + b)[i] == a[i] && (a + b)[j] == a[j];
    }
  }

  /** Whole batches read back as exactly their events. */
  lemma {:induction false} ReadFrames(json: Json, batches: seq<seq<Event>>)
    requires Lawful(json) && (forall b | b in batches :: b != []) && StrictlyIncreasing(Flatten(batches))
    ensures var r := Read(json, Frames(json, batches));
            r.events == Flatten(batches) && !r.failed && Increasing(r) && (r.events == [] ==> r.previous == None)
    decreases |batches|
  {
    if batches != [] {
      var n := |batches| - 1;
      var init, batch := batches[..n], batches[n];
      assert batch in batches;
      assert forall b | b in init :: b in batches;
      PrefixIncreasing(Flatten(init), batch);
      ReadFrames(json, init);
      FramesEnd(json, init);
      LinesConcat("", Frames(json, init), Frame(json, batch));
      LinesOfText("", json.encode(batch));
      assert "" + json.encode(batch) == json.encode(batch);
      ReadLinesConcat(json, NOTHING, FileLines("", Frames(json, init)), [Frame(json, batch)]);
      ReadBatchLine(json, Read(json, Frames(json, init)), batch, Frame(json, batch));
      OneLine(json, Read(json, Frames(json, init)), Frame(json, batch));
    }
  }

  lemma OneLine(json: Json, r: Reading, line: string)
    ensures ReadLines(json, r, [line]) == ReadLine(json, r, line)
  {
    assert [line][1..] == [];
  }

  /** A connection: the batches written whole, and perhaps the beginning of one more. */
  datatype Connection = Connection(batches: seq<seq<Event>>, torn: Option<Torn>)

  datatype Torn = Torn(batch: seq<Event>, cut: nat)

  ghost predicate WellTorn(json: Json, c: Connection) {
    && (forall b | b in c.batches :: b != [])
    && (c.torn.Some? ==> c.torn.value.batch != [] && c.torn.value.cut <= |json.encode(c.torn.value.batch)|)
  }

  ghost function Bytes(json: Json, c: Connection): string
    requires WellTorn(json, c)
  {
    Frames(json, c.batches) + if c.torn.Some? then json.encode(c.torn.value.batch)[..c.torn.value.cut] else ""
  }

  function TornEvents(c: Connection): seq<Event> {
    if c.torn.Some? then c.torn.value.batch else []
  }

  /** The batch that was cut short lacks no more than its line end. */
  ghost predicate LacksOnlyLineEnd(json: Json, c: Connection) {
    c.torn.Some? && c.torn.value.cut == |json.encode(c.torn.value.batch)|
  }

  /** The reader of one connection yields exactly the events of its whole batches. A batch that was cut short adds
      nothing and ends the reading with an error, unless nothing of it arrived or nothing but its line end is missing;
      in that last case the reader takes it as whole, although the writer will send it again. */
  lemma ConnectionReads(json: Json, c: Connection)
    requires Lawful(json) && WellTorn(json, c)
    requires StrictlyIncreasing(Flatten(c.batches) + TornEvents(c))
    ensures Read(json, Bytes(json, c)).events
         == Flatten(c.batches) + if LacksOnlyLineEnd(json, c) then c.torn.value.batch else []
    ensures Read(json, Bytes(json, c)).failed
       <==> c.torn.Some? && 0 < c.torn.value.cut < |json.encode(c.torn.value.batch)|
  {
    var whole := Frames(json, c.batches);
    PrefixIncreasing(Flatten(c.batches), TornEvents(c));
    ReadFrames(json, c.batches);
    assert Flatten(c.batches) + [] == Flatten(c.batches);
    if c.torn.None? || c.torn.value.cut == 0 {
      assert whole + "" == whole;
    } else {
      var batch, cut := c.torn.value.batch, c.torn.value.cut;
      var text := json.encode(batch)[..cut];
      assert '\n' !in text;
      FramesEnd(json, c.batches);
      LinesConcat("", whole, text);
      LinesOfText("", text);
      assert "" + text == text;
      ReadLinesConcat(json, NOTHING, FileLines("", whole), [text]);
      OneLine(json, Read(json, whole), text);
      if cut == |json.encode(batch)| {
        assert text == json.encode(batch);
        ReadBatchLine(json, Read(json, whole), batch, text);
      } else {
        assert !IsPythonSpace(text[0]);
      }
    }
  }
}
