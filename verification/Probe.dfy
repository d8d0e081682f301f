/** The gRPC probe's connection (spike/grpc/probe/main.go:156-298): one loop reading frames and one
    goroutine a finished call, sharing a map of open streams and a write lock. A run is any
    interleaving of their steps. */
module Probe {

  type StreamId = nat

  /** A frame the loop has read: what of it the two sides share. */
  datatype Frame =
    | Headers(stream: StreamId, endStream: bool)
    | Data(stream: StreamId, length: nat, endStream: bool)
    | Settings(ack: bool)
    | Ping(ack: bool, data: nat)
    | Other

  /** A frame of the loop's own: its answer to SETTINGS, to so many octets of DATA, or to a PING. */
  datatype Own = SettingsAck | WindowUpdate(octets: nat) | PingAck(data: nat)

  /** What goes out: a frame of the loop's own, or the part-th of the three frames answering a call. */
  datatype Sent = Control(own: Own) | Answer(call: nat, part: nat)

  /** A responder sleeps, takes the write lock and writes its three frames; still holding it takes the
      map's lock, deletes its stream and lets both go, the map's first; and says it is done. */
  datatype Progress =
    | Sleeping
    | Writing(frames: nat)
    | Deleting            // has both locks
    | Deleted             // has both locks, and the stream is out of the map
    | Releasing           // has the write lock still
    | Returning           // has neither
    | Finished            // and has said so

  datatype Responder = Responder(stream: StreamId, at: Progress)

  /** Where the frame loop is: reading; with a HEADERS frame, about to take the map's lock, inside it,
      or with the stream recorded and about to let go; about to start a responder; about to write a
      frame of its own; waiting for the responders after the connection ended; or past that wait. */
  datatype Main =
    | Reading
    | Locking(stream: StreamId, endStream: bool)
    | Inside(stream: StreamId, endStream: bool)
    | Recorded(stream: StreamId, endStream: bool)
    | Starting(stream: StreamId)
    | Sending(own: Own, after: Next)
    | Waiting
    | Closed

  /** What follows the loop's own write: reading on, or a responder to start. */
  datatype Next = ReadOn | StartAfter(stream: StreamId)

  datatype State = State(
    main: Main,
    read: nat,
    open: set<StreamId>,
    calls: nat,
    maxOpen: nat,
    responders: seq<Responder>,
    holder: int, // of the write lock: a responder, or nobody between the loop's own writes
    mapper: int, // of the map's lock: a responder, the loop, or nobody
    wire: seq<Sent>)

  const NOBODY := -1
  const LOOP := -2

  const START: State := State(Reading, 0, {}, 0, 0, [], NOBODY, NOBODY, [])

  // ---- the steps ----

  datatype Step =
    | ReadFrame
    | TakeMap
    | RecordStream
    | FreeMap
    | StartResponder
    | SendOwn
    | HangUp
    | Respond(call: nat, act: Act)
    | WaitDone

  datatype Act = TakeLock | WriteAnswer | TakeMapToo | DeleteStream | FreeMapFirst | FreeLock | SayDone

  /** What a responder may do next, given who has the locks. */
  predicate May(s: State, j: nat, at: Progress, act: Act) {
    match act
    case TakeLock => at.Sleeping? && s.holder == NOBODY
    case WriteAnswer => at.Writing? && at.frames < 3
    case TakeMapToo => at == Writing(3) && s.mapper == NOBODY
    case DeleteStream => at.Deleting?
    case FreeMapFirst => at.Deleted?
    case FreeLock => at.Releasing?
    case SayDone => at.Returning?
  }

  predicate Enabled(script: seq<Frame>, s: State, step: Step) {
    match step
    case ReadFrame => s.main.Reading? && s.read < |script|
    case HangUp => s.main.Reading? && s.read == |script|
    case TakeMap => s.main.Locking? && s.mapper == NOBODY
    case RecordStream => s.main.Inside?
    case FreeMap => s.main.Recorded?
    case StartResponder => s.main.Starting?
    case SendOwn => s.main.Sending? && s.holder == NOBODY
    case Respond(j, act) => j < |s.responders| && May(s, j, s.responders[j].at, act)
    case WaitDone => s.main.Waiting? && forall r <- s.responders :: r.at.Finished?
  }

  /** HEADERS, inside the map's lock: a stream already open is sending trailers; any other is a
      call, and the record keeps the most calls ever open. */
  function Register(s: State, id: StreamId): State {
    if id in s.open then s
    else
      var open := s.open + {id};
      s.(open := open, calls := s.calls + 1, maxOpen := if |open| > s.maxOpen then |open| else s.maxOpen)
  }

  function AfterFrame(id: StreamId, endStream: bool): Main {
    if endStream then Starting(id) else Reading
  }

  function OnFrame(f: Frame): Main {
    match f
    case Headers(id, endStream) => Locking(id, endStream)
    case Data(id, length, endStream) =>
      if length > 0 then Sending(WindowUpdate(length), if endStream then StartAfter(id) else ReadOn)
      else AfterFrame(id, endStream)
    case Settings(ack) => if ack then Reading else Sending(SettingsAck, ReadOn)
    case Ping(ack, data) => if ack then Reading else Sending(PingAck(data), ReadOn)
    case Other => Reading
  }

  function Then(at: Progress, act: Act): Progress {
    match act
    case TakeLock => Writing(0)
    case WriteAnswer => Writing(if at.Writing? then at.frames + 1 else 0)
    case TakeMapToo => Deleting
    case DeleteStream => Deleted
    case FreeMapFirst => Releasing
    case FreeLock => Returning
    case SayDone => Finished
  }

  /** A responder's step: its own progress, and what it does to what is shared. */
  function RespondStep(s: State, j: nat, act: Act): State
    requires j < |s.responders| && May(s, j, s.responders[j].at, act)
  {
    var r := s.responders[j];
    var t := s.(responders := s.responders[j := Responder(r.stream, Then(r.at, act))]);
    match act
    case TakeLock => t.(holder := j)
    case WriteAnswer => t.(wire := s.wire + [Answer(j, r.at.frames)])
    case TakeMapToo => t.(mapper := j)
    case DeleteStream => t.(open := s.open - {r.stream})
    case FreeMapFirst => t.(mapper := NOBODY)
    case FreeLock => t.(holder := NOBODY)
    case SayDone => t
  }

  function Apply(script: seq<Frame>, s: State, step: Step): State
    requires Enabled(script, s, step)
  {
    match step
    case ReadFrame => s.(main := OnFrame(script[s.read]), read := s.read + 1)
    case HangUp => s.(main := Waiting)
    case TakeMap => s.(main := Inside(s.main.stream, s.main.endStream), mapper := LOOP)
    case RecordStream => Register(s, s.main.stream).(main := Recorded(s.main.stream, s.main.endStream))
    case FreeMap => s.(main := AfterFrame(s.main.stream, s.main.endStream), mapper := NOBODY)
    case StartResponder =>
      s.(main := Reading, responders := s.responders + [Responder(s.main.stream, Sleeping)])
    case SendOwn =>
      s.(main := (match s.main.after case ReadOn => Reading case StartAfter(id) => Starting(id)),
         wire := s.wire + [Control(s.main.own)])
    case Respond(j, act) => RespondStep(s, j, act)
    case WaitDone => s.(main := Closed)
  }

  /** A run: every step is one the state it was taken in allows. */
  predicate Possible(script: seq<Frame>, steps: seq<Step>)
    decreases |steps|, 0
  {
    steps == [] ||
    (var before := steps[..|steps| - 1];
     Possible(script, before) && Enabled(script, Exec(script, before), steps[|steps| - 1]))
  }

  function Exec(script: seq<Frame>, steps: seq<Step>): State
    requires Possible(script, steps)
    decreases |steps|, 1
  {
    if steps == [] then START
    else
      var before := steps[..|steps| - 1];
      Apply(script, Exec(script, before), steps[|steps| - 1])
  }

  // ---- the most streams ever open ----

  /** The largest the map of open streams has been at any moment of the run. */
  function Peak(script: seq<Frame>, steps: seq<Step>): nat
    requires Possible(script, steps)
    decreases |steps|
  {
    var now := |Exec(script, steps).open|;
    if steps == [] then now
    else
      var earlier := Peak(script, steps[..|steps| - 1]);
      if now > earlier then now else earlier
  }

  /** `MaxOpen` is the true maximum, and never more than the calls counted. */
  lemma {:induction false} MaxOpenIsPeak(script: seq<Frame>, steps: seq<Step>)
    requires Possible(script, steps)
    ensures Exec(script, steps).maxOpen == Peak(script, steps)
    ensures |Exec(script, steps).open| <= Exec(script, steps).calls
    ensures Exec(script, steps).maxOpen <= Exec(script, steps).calls
    decreases |steps|
  {
    if steps != [] {
      var before := steps[..|steps| - 1];
      MaxOpenIsPeak(script, before);
      var s := Exec(script, before);
      assert |s.open| <= s.maxOpen by { PeakCoversNow(script, before); }
      OpenGrowsByOne(script, s, steps[|steps| - 1]);
    }
  }

  lemma PeakCoversNow(script: seq<Frame>, steps: seq<Step>)
    requires Possible(script, steps)
    ensures |Exec(script, steps).open| <= Peak(script, steps)
  {
  }

  lemma OpenGrowsByOne(script: seq<Frame>, s: State, step: Step)
    requires Enabled(script, s, step) && |s.open| <= s.maxOpen && |s.open| <= s.calls && s.maxOpen <= s.calls
    ensures var t := Apply(script, s, step);
            && t.maxOpen == (if |t.open| > s.maxOpen then |t.open| else s.maxOpen)
            && |t.open| <= t.calls && t.maxOpen <= t.calls
  {
    match step
    case Respond(j, DeleteStream) =>
      var id := s.responders[j].stream;
      if id in s.open { assert s.open == (s.open - {id}) + {id}; } else { assert s.open - {id} == s.open; }
    case _ =>
  }

  // ---- the write lock ----

  /** Whole answers and the loop's own frames, nothing cut up. */
  predicate Whole(wire: seq<Sent>) {
    wire == [] ||
    (if wire[0].Control? then Whole(wire[1..])
     else
       && |wire| >= 3
       && wire[..3] == AnswerFrames(wire[0].call, 3)
       && Whole(wire[3..]))
  }

  function AnswerFrames(call: nat, frames: nat): (s: seq<Sent>)
    ensures |s| == frames
  {
    if frames == 0 then [] else AnswerFrames(call, frames - 1) + [Answer(call, frames - 1)]
  }

  /** Between taking the write lock and letting it go. */
  predicate HasLock(at: Progress) { at.Writing? || at.Deleting? || at.Deleted? || at.Releasing? }

  /** How many of its frames are out. */
  function Written(at: Progress): nat {
    match at case Sleeping => 0 case Writing(n) => n case _ => 3
  }

  /** The holder of the write lock is the one responder between taking it and letting it go, and what
      it has written so far is at the end of the wire. */
  ghost predicate LockHeld(s: State) {
    && (forall j :: 0 <= j < |s.responders| ==> (HasLock(s.responders[j].at) <==> s.holder == j))
    && (s.holder == NOBODY || 0 <= s.holder < |s.responders|)
    && (s.holder == NOBODY ==> Whole(s.wire))
    && (s.holder != NOBODY ==>
          exists done :: Whole(done) && s.wire == done + AnswerFrames(s.holder, Written(s.responders[s.holder].at)))
    && (s.holder != NOBODY ==> Written(s.responders[s.holder].at) <= 3)
  }

  /** The holder of the map's lock is whoever is inside it: the loop, or the one responder. */
  ghost predicate MapHeld(s: State) {
    && (forall j :: 0 <= j < |s.responders| ==>
          (s.responders[j].at.Deleting? || s.responders[j].at.Deleted? <==> s.mapper == j))
    && (s.main.Inside? || s.main.Recorded? <==> s.mapper == LOOP)
    && (s.mapper == NOBODY || s.mapper == LOOP || 0 <= s.mapper < |s.responders|)
  }

  lemma {:induction false} WholeAppends(wire: seq<Sent>, more: seq<Sent>)
    requires Whole(wire) && Whole(more)
    ensures Whole(wire + more)
    decreases |wire|
  {
    if wire == [] {
      assert wire + more == more;
    } else if wire[0].Control? {
      assert (wire + more)[1..] == wire[1..] + more;
      WholeAppends(wire[1..], more);
    } else {
      assert (wire + more)[..3] == wire[..3] && (wire + more)[3..] == wire[3..] + more;
      WholeAppends(wire[3..], more);
    }
  }

  lemma AnswerIsWhole(call: nat)
    ensures Whole(AnswerFrames(call, 3))
  {
    var a := AnswerFrames(call, 3);
    assert AnswerFrames(call, 1) == [Answer(call, 0)];
    assert AnswerFrames(call, 2) == [Answer(call, 0), Answer(call, 1)];
    assert a == [Answer(call, 0), Answer(call, 1), Answer(call, 2)];
    assert a[..3] == a && a[3..] == [];
  }

  lemma LockStep(script: seq<Frame>, s: State, step: Step)
    requires Enabled(script, s, step) && LockHeld(s)
    ensures LockHeld(Apply(script, s, step))
  {
    var t := Apply(script, s, step);
    match step
    case SendOwn =>
      assert Whole([Control(s.main.own)]) by { assert [Control(s.main.own)][1..] == []; }
      WholeAppends(s.wire, [Control(s.main.own)]);
    case Respond(j, act) => ResponderKeepsLock(s, j, act);
    case _ =>
  }

  lemma ResponderKeepsLock(s: State, j: nat, act: Act)
    requires LockHeld(s) && j < |s.responders| && May(s, j, s.responders[j].at, act)
    ensures LockHeld(RespondStep(s, j, act))
  {
    var t := RespondStep(s, j, act);
    match act
    case TakeLock => assert t.wire == s.wire + AnswerFrames(j, 0);
    case WriteAnswer =>
      var done :| Whole(done) && s.wire == done + AnswerFrames(j, s.responders[j].at.frames);
      assert t.wire == done + AnswerFrames(j, s.responders[j].at.frames + 1);
    case FreeLock =>
      var done :| Whole(done) && s.wire == done + AnswerFrames(j, 3);
      AnswerIsWhole(j);
      WholeAppends(done, AnswerFrames(j, 3));
    case SayDone =>
    case _ =>
      var done :| Whole(done) && s.wire == done + AnswerFrames(j, 3);
  }

  lemma MapStep(script: seq<Frame>, s: State, step: Step)
    requires Enabled(script, s, step) && MapHeld(s)
    ensures MapHeld(Apply(script, s, step))
  {
  }

  /** No interleaving mixes two answers: whenever the write lock is free, the wire is whole answers.
      And only one of loop and responders is ever inside the map's lock. */
  lemma {:induction false} AnswersAreContiguous(script: seq<Frame>, steps: seq<Step>)
    requires Possible(script, steps)
    ensures LockHeld(Exec(script, steps)) && MapHeld(Exec(script, steps))
    decreases |steps|
  {
    if steps != [] {
      hide LockHeld, MapHeld, Enabled, Apply;
      var before := steps[..|steps| - 1];
      AnswersAreContiguous(script, before);
      LockStep(script, Exec(script, before), steps[|steps| - 1]);
      MapStep(script, Exec(script, before), steps[|steps| - 1]);
    } else {
      assert LockHeld(START) && MapHeld(START);
    }
  }
}
