/** The writing end of the directory-event FIFO: batches written in parts, over connections that come and go. */
module EventDelivery {
  import opened Options
  import opened Sequences
  import opened EventProtocol

  datatype Errno = EPIPE | ENXIO | EAGAIN | EWOULDBLOCK | OtherErrno

  /** What the system answers: an open succeeds whatever `n` is, a write accepts at most `n` bytes. */
  datatype Syscall = Succeeds(n: nat) | Fails(errno: Errno)

  /** How an attempt to write ends: all the bytes are accepted, or an error ends it first. */
  datatype Attempt = Accepted | Blocked(errno: Errno)

  /** Writing `left` bytes when the system answers as `os` says from `next` on, and the pipe is full after that. */
  function Written(os: seq<Syscall>, next: nat, left: nat): Attempt
    decreases |os| - next
  {
    if left == 0 then Accepted
    else if next >= |os| then Blocked(EAGAIN)
    else
      match os[next]
      case Fails(errno) => Blocked(errno)
      case Succeeds(n) => Written(os, next + 1, left - Min(n, left))
  }

  /** The same, after opening the pipe if it is not open. */
  function Attempted(isOpen: bool, os: seq<Syscall>, left: nat): Attempt {
    if isOpen then Written(os, 0, left)
    else if os == [] then Blocked(EAGAIN)
    else
      match os[0]
      case Fails(errno) => Blocked(errno)
      case Succeeds(_) => Written(os, 1, left)
  }

  /** No answer from `next` up to `end` is an error. */
  predicate NoneFails(os: seq<Syscall>, next: nat, end: nat) {
    next <= end <= |os| && forall i | next <= i < end :: os[i].Succeeds?
  }

  /** The bytes that the answers from `next` up to `end` have room for. */
  function Room(os: seq<Syscall>, next: nat, end: nat): nat
    requires NoneFails(os, next, end)
    decreases end - next
  {
    if next == end then 0 else os[next].n + Room(os, next + 1, end)
  }

  /** All the bytes are accepted if and only if there is room for them before the first error. */
  lemma {:induction false} AcceptedIff(os: seq<Syscall>, next: nat, left: nat)
    requires next <= |os|
    ensures Written(os, next, left).Accepted? <==>
              exists end: nat :: NoneFails(os, next, end) && Room(os, next, end) >= left
    decreases |os| - next
  {
    if left == 0 {
      assert NoneFails(os, next, next) && Room(os, next, next) >= left;
    } else if next < |os| && os[next].Succeeds? {
      var later, rest := next + 1, left - Min(os[next].n, left);
      AcceptedIff(os, later, rest);
      if end: nat :| NoneFails(os, later, end) && Room(os, later, end) >= rest {
        assert NoneFails(os, next, end) && Room(os, next, end) == os[next].n + Room(os, later, end);
      }
      if end: nat :| NoneFails(os, next, end) && Room(os, next, end) >= left {
        assert NoneFails(os, later, end) && Room(os, next, end) == os[next].n + Room(os, later, end);
      }
    }
  }

  /** An error other than a full pipe is one of the answers. */
  lemma {:induction false} BlockedByAnswer(os: seq<Syscall>, next: nat, left: nat)
    ensures Written(os, next, left).Blocked? && Written(os, next, left).errno != EAGAIN ==>
              Fails(Written(os, next, left).errno) in os
    decreases |os| - next
  {
    if left > 0 && next < |os| && os[next].Succeeds? {
      BlockedByAnswer(os, next + 1, left - Min(os[next].n, left));
    }
  }

  lemma NothingToWrite(os: seq<Syscall>, next: nat)
    ensures Written(os, next, 0) == Accepted
  {}

  /** What is raised is an answer. */
  lemma RaisedByAnswer(isOpen: bool, os: seq<Syscall>, left: nat)
    ensures Attempted(isOpen, os, left) == Blocked(OtherErrno) ==> Fails(OtherErrno) in os
  {
    BlockedByAnswer(os, 0, left);
    BlockedByAnswer(os, 1, left);
  }

  /** The events of the batches that the connections took whole. */
  function Carried(connections: seq<Connection>): seq<Event> {
    if connections == [] then []
    else Carried(connections[..|connections| - 1]) + Flatten(connections[|connections| - 1].batches)
  }

  /** On every connection the whole batches go on where the earlier connections ended, and so does a torn one. */
  ghost predicate InOrder(connections: seq<Connection>, journal: seq<Event>) {
    connections == []
    || var last := |connections| - 1;
       && InOrder(connections[..last], journal)
       && Carried(connections) + TornEvents(connections[last]) <= journal
  }

  /** The bytes that each connection accepted are its whole batches and the beginning of the torn one. */
  ghost predicate Wrote(json: Json, connections: seq<Connection>, wires: seq<string>) {
    && |wires| == |connections|
    && forall i | 0 <= i < |wires| :: WellTorn(json, connections[i]) && wires[i] == Bytes(json, connections[i])
  }

  class EventWriter {
    const json: Json
    var descriptor: bool
    var payload: Option<string>
    var batch: seq<Event>
    var offset: nat

    // The history that the properties are about: the connections so far, and the bytes that each has accepted.
    ghost var past: seq<Connection>
    ghost var pastWires: seq<string>
    ghost var sent: seq<seq<Event>>
    ghost var wire: string

    ghost function Current(): Connection
      reads this
    {
      Connection(sent, if payload.Some? then Some(Torn(batch, offset)) else None)
    }

    ghost function Connections(): seq<Connection>
      reads this
    {
      if descriptor then past + [Current()] else past
    }

    ghost function Wires(): seq<string>
      reads this
    {
      if descriptor then pastWires + [wire] else pastWires
    }

    ghost function Delivered(): seq<Event>
      reads this
    {
      Carried(past) + Flatten(sent)
    }

    ghost predicate Valid()
      reads this
    {
      && (payload.Some? ==> descriptor && batch != [] && payload.value == Frame(json, batch)
                            && offset < |payload.value|)
      && (payload.None? ==> batch == [] && offset == 0)
      && (!descriptor ==> sent == [])
      && Wrote(json, past, pastWires)
      && (descriptor ==> WellTorn(json, Current()) && wire == Bytes(json, Current()))
    }

    /** What the connections carried and what is pending make up the journal, in order, and a batch in flight is the
        beginning of what is pending. */
    ghost predicate Keeps(journal: seq<Event>, pending: seq<Event>)
      reads this
    {
      && Valid()
      && Delivered() + pending == journal
      && batch <= pending
      && InOrder(past, journal)
    }

    constructor (json: Json)
      ensures this.json == json && Keeps([], []) && Connections() == [] && Delivered() == [] && !descriptor
    {
      this.json := json;
      descriptor, payload, batch, offset := false, None, [], 0;
      past, pastWires, sent, wire := [], [], [], "";
    }

    method Close(resetPayload: bool, ghost journal: seq<Event>, ghost pending: seq<Event>)
      requires Keeps(journal, pending)
      requires !descriptor ==> payload.None?
      modifies this
      ensures !descriptor && Connections() == old(Connections()) && Wires() == old(Wires())
      ensures InOrder(Connections(), journal) && Wrote(json, Connections(), Wires())
      ensures Delivered() == old(Delivered()) && old(past) <= past && old(pastWires) <= pastWires
      ensures Carried(Connections()) == Delivered()
      ensures resetPayload ==> Keeps(journal, pending) && payload.None?
      ensures !resetPayload ==> payload == old(payload) && batch == old(batch) && offset == old(offset)
    {
      hide InOrder, Carried, Flatten, Wrote;
      NothingSent();
      if descriptor {
        CurrentInOrder(journal, pending);
        past, pastWires := past + [Current()], pastWires + [wire];
        descriptor, sent, wire := false, [], "";
      }
      assert Delivered() == Carried(past);
      if resetPayload {
        payload, batch, offset := None, [], 0;
      }
    }

    lemma NothingSent()
      ensures Flatten([]) == []
    {}

    lemma CurrentInOrder(journal: seq<Event>, pending: seq<Event>)
      requires Keeps(journal, pending) && descriptor
      ensures Carried(past + [Current()]) == Delivered()
      ensures InOrder(past + [Current()], journal)
      ensures Wrote(json, past + [Current()], pastWires + [wire])
    {
      var all := past + [Current()];
      assert all[..|all| - 1] == past && all[|all| - 1] == Current();
      assert TornEvents(Current()) == batch;
      assert Delivered() + batch <= Delivered() + pending;
    }

    /** An error of a system call: the reader went away, the pipe is full, or the error is raised. */
    method Recover(errno: Errno, ghost journal: seq<Event>, ghost pending: seq<Event>) returns (raised: bool)
      requires Keeps(journal, pending)
      modifies this
      ensures Keeps(journal, pending) && Delivered() == old(Delivered())
      ensures Connections() == old(Connections()) && Wires() == old(Wires())
      ensures old(past) <= past && old(pastWires) <= pastWires
      ensures raised <==> errno == OtherErrno
      ensures if errno == EPIPE || errno == ENXIO then !descriptor && payload.None?
              else descriptor == old(descriptor) && payload == old(payload) && batch == old(batch)
                   && offset == old(offset) && past == old(past)
    {
      raised := errno == OtherErrno;
      if errno == EPIPE || errno == ENXIO {
        Close(true, journal, pending);
      }
    }

    /** The bytes that an attempt to hand over what is pending has to write. */
    ghost function Left(pending: seq<Event>): nat
      reads this
    {
      if payload.Some? then (if offset <= |payload.value| then |payload.value| - offset else 0)
      else if pending == [] then 0 else |Frame(json, pending)|
    }

    /** One attempt to hand over what is pending; `os` are the answers of the system, and a pipe that is full after
        them. The whole of a batch is delivered when all its bytes are accepted, otherwise nothing is; an error that is
        not about the reader is raised, and a reader that has gone away ends the connection. */
    method Flush(pending: seq<Event>, os: seq<Syscall>, ghost journal: seq<Event>)
      returns (delivered: seq<Event>, rest: seq<Event>, raised: bool)
      requires Keeps(journal, pending)
      modifies this
      ensures Keeps(journal, rest)
      ensures old(past) <= past && old(pastWires) <= pastWires
      ensures delivered + rest == pending
      ensures Delivered() == old(Delivered()) + delivered
      ensures var attempt := Attempted(old(descriptor), os, old(Left(pending)));
              && (raised <==> attempt == Blocked(OtherErrno))
              && delivered == (if attempt.Blocked? then [] else if old(payload).Some? then old(batch) else pending)
              && (if attempt == Blocked(EPIPE) || attempt == Blocked(ENXIO) then !descriptor && payload.None?
                  else past == old(past))
              && (attempt.Accepted? ==> descriptor && payload.None?)
      ensures delivered != [] ==> !raised && descriptor && payload.None? && sent != []
                                  && sent[|sent| - 1] == delivered
    {
      hide Writing, Keeps, Delivered, Written;
      delivered, rest, raised := [], pending, false;
      var next := 0;
      KeepsFacts(journal, pending);
      if !descriptor {
        var opening := if |os| > 0 then os[0] else Fails(EAGAIN);
        next := 1;
        if opening.Fails? {
          raised := Recover(opening.errno, journal, pending);
          Nothing(pending);
          return;
        }
        Open(journal, pending);
      }
      if payload.None? && pending != [] {
        Start(journal, pending);
      } else if payload.Some? {
        KeepsWriting(journal, pending);
      }
      if payload.Some? {
        WritingFacts(journal, pending);
        var blocked;
        blocked, raised := WriteOut(os, next, journal, pending);
        if blocked {
          Nothing(pending);
        } else {
          WritingFacts(journal, pending);
          delivered, rest := batch, pending[|batch|..];
          Finish(journal, pending);
        }
      } else {
        Nothing(pending);
        NothingToWrite(os, next);
      }
    }

    lemma Nothing(pending: seq<Event>)
      ensures [] + pending == pending && Delivered() + [] == Delivered()
    {}

    /** Writes until the payload has been accepted to its last byte or a write fails. */
    method WriteOut(os: seq<Syscall>, first: nat, ghost journal: seq<Event>, ghost pending: seq<Event>)
      returns (blocked: bool, raised: bool)
      requires Writing(journal, pending) && payload.Some? && offset <= |payload.value|
      modifies this
      ensures Delivered() == old(Delivered()) && old(past) <= past && old(pastWires) <= pastWires
      ensures var attempt := Written(os, first, |old(payload).value| - old(offset));
              && (blocked <==> attempt.Blocked?) && (raised <==> attempt == Blocked(OtherErrno))
              && (if attempt == Blocked(EPIPE) || attempt == Blocked(ENXIO) then !descriptor && payload.None?
                  else past == old(past))
      ensures blocked ==> Keeps(journal, pending)
      ensures !blocked ==> !raised && Writing(journal, pending) && offset == |payload.value|
                           && batch == old(batch)
    {
      hide Writing, Keeps, Delivered;
      var next := first;
      assert payload.Some? by { WritingFacts(journal, pending); }
      while offset < |payload.value|
        invariant Writing(journal, pending) && payload.Some?
        invariant Delivered() == old(Delivered()) && batch == old(batch)
        invariant past == old(past) && pastWires == old(pastWires)
        invariant payload == old(payload) && offset <= |payload.value|
        invariant Written(os, next, |payload.value| - offset) == Written(os, first, |payload.value| - old(offset))
        decreases |os| - next
      {
        var writing := if next < |os| then os[next] else Fails(EAGAIN);
        next := next + 1;
        if writing.Fails? {
          WritingKeeps(journal, pending);
          raised := Recover(writing.errno, journal, pending);
          return true, raised;
        }
        Write(writing.n, journal, pending);
      }
      WritingFacts(journal, pending);
      return false, false;
    }

    lemma WritingFacts(journal: seq<Event>, pending: seq<Event>)
      requires Writing(journal, pending)
      ensures payload.Some? && offset <= |payload.value| && batch != [] && batch <= pending
    {}

    lemma KeepsFacts(journal: seq<Event>, pending: seq<Event>)
      requires Keeps(journal, pending)
      ensures !descriptor ==> payload.None?
    {}

    /** As `Keeps`, but the batch in flight may have been accepted to its last byte. */
    ghost predicate Writing(journal: seq<Event>, pending: seq<Event>)
      reads this
    {
      && payload.Some? && descriptor && batch != [] && batch <= pending
      && payload.value == Frame(json, batch) && offset <= |payload.value|
      && Wrote(json, past, pastWires) && (forall b | b in sent :: b != [])
      && wire == Frames(json, sent) + payload.value[..offset]
      && Delivered() + pending == journal && InOrder(past, journal)
    }

    lemma WritingKeeps(journal: seq<Event>, pending: seq<Event>)
      requires Writing(journal, pending) && offset < |payload.value|
      ensures Keeps(journal, pending)
    {
      assert payload.value[..offset] == json.encode(batch)[..offset];
    }

    lemma KeepsWriting(journal: seq<Event>, pending: seq<Event>)
      requires Keeps(journal, pending) && payload.Some?
      ensures Writing(journal, pending)
    {
      assert payload.value[..offset] == json.encode(batch)[..offset];
    }

    /** The connection is open and nothing has been written on it. */
    method Open(ghost journal: seq<Event>, ghost pending: seq<Event>)
      requires Keeps(journal, pending) && !descriptor
      modifies this
      ensures Keeps(journal, pending) && descriptor && Delivered() == old(Delivered())
      ensures payload == old(payload) && batch == old(batch) && past == old(past) && pastWires == old(pastWires)
      ensures Connections() == old(Connections()) + [Connection([], None)] && Wires() == old(Wires()) + [""]
    {
      descriptor, wire := true, "";
      assert Bytes(json, Current()) == "" + "";
    }

    /** All that is pending becomes the batch in flight. */
    method Start(ghost journal: seq<Event>, pending: seq<Event>)
      requires Keeps(journal, pending) && descriptor && payload.None? && pending != []
      modifies this
      ensures Writing(journal, pending) && batch == pending && Delivered() == old(Delivered())
      ensures past == old(past) && pastWires == old(pastWires)
      ensures descriptor == old(descriptor) && payload == Some(Frame(json, pending)) && offset == 0
    {
      batch, payload, offset := pending, Some(json.encode(pending) + "\n"), 0;
      assert wire == Frames(json, sent) + "" && payload.value[..0] == "";
    }

    /** The connection accepts some of the bytes that are left. */
    method Write(n: nat, ghost journal: seq<Event>, ghost pending: seq<Event>)
      requires Writing(journal, pending) && offset < |payload.value|
      modifies this
      ensures Writing(journal, pending) && past == old(past) && pastWires == old(pastWires)
      ensures payload == old(payload) && batch == old(batch) && Delivered() == old(Delivered())
      ensures offset == Min(old(offset) + n, |payload.value|)
      ensures wire == old(wire) + payload.value[old(offset)..offset]
    {
      var accepted := Min(n, |payload.value| - offset);
      ghost var chunk := payload.value[offset..offset + accepted];
      assert payload.value[..offset + accepted] == payload.value[..offset] + chunk;
      assert Frames(json, sent) + (payload.value[..offset] + chunk)
          == Frames(json, sent) + payload.value[..offset] + chunk;
      wire := wire + chunk;
      offset := offset + accepted;
    }

    /** The whole batch has been accepted. */
    method Finish(ghost journal: seq<Event>, pending: seq<Event>)
      requires Writing(journal, pending) && offset == |payload.value|
      modifies this
      ensures Keeps(journal, pending[|old(batch)|..]) && descriptor && payload.None?
      ensures Delivered() == old(Delivered()) + old(batch) && sent == old(sent) + [old(batch)]
      ensures past == old(past) && pastWires == old(pastWires)
    {
      ghost var sent', batch' := sent + [batch], batch;
      assert sent'[..|sent' | - 1] == sent;
      assert payload.value[..offset] == Frame(json, batch);
      assert Frames(json, sent') == Frames(json, sent) + Frame(json, batch);
      assert Flatten(sent') == Flatten(sent) + batch;
      assert Carried(past) + (Flatten(sent) + batch) == Carried(past) + Flatten(sent) + batch;
      assert pending == batch + pending[|batch|..];
      assert Delivered() + (batch + pending[|batch|..]) == Delivered() + batch + pending[|batch|..];
      sent := sent';
      payload, batch, offset := None, [], 0;
      assert Bytes(json, Current()) == wire + "";
    }
  }
}
