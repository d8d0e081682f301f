/** What every interleaving of the probe's steps adds up to: each END_STREAM is answered once, the
    wait at the end is always reached, and a client that ends each stream once leaves none open. */
module ProbeCalls {
  import opened Probe

  // ---- counting ----

  predicate Ends(f: Frame, id: StreamId) {
    (f.Headers? || f.Data?) && f.stream == id && f.endStream
  }

  function EndsIn(frames: seq<Frame>, id: StreamId): nat {
    if frames == [] then 0
    else EndsIn(frames[..|frames| - 1], id) + (if Ends(frames[|frames| - 1], id) then 1 else 0)
  }

  function RespondersFor(rs: seq<Responder>, id: StreamId): nat {
    if rs == [] then 0
    else RespondersFor(rs[..|rs| - 1], id) + (if rs[|rs| - 1].stream == id then 1 else 0)
  }

  function Pending(m: Main, id: StreamId): nat {
    match m
    case Locking(x, end) => if end && x == id then 1 else 0
    case Inside(x, end) => if end && x == id then 1 else 0
    case Recorded(x, end) => if end && x == id then 1 else 0
    case Starting(x) => if x == id then 1 else 0
    case Sending(_, StartAfter(x)) => if x == id then 1 else 0
    case _ => 0
  }

  function Occurrences(wire: seq<Sent>, x: Sent): nat {
    if wire == [] then 0
    else Occurrences(wire[..|wire| - 1], x) + (if wire[|wire| - 1] == x then 1 else 0)
  }

  /** Every END_STREAM read has its responder, or is about to; and every responder has put each of
      its three frames on the wire once, as far as it has got. */
  ghost predicate Accounted(script: seq<Frame>, s: State) {
    && s.read <= |script|
    && (s.main.Waiting? || s.main.Closed? ==> s.read == |script|)
    && (s.main.Closed? ==> forall r <- s.responders :: r.at.Finished?)
    && (forall id :: RespondersFor(s.responders, id) + Pending(s.main, id) == EndsIn(script[..s.read], id))
    && (forall j: nat, p: nat | p < 3 :: Occurrences(s.wire, Answer(j, p))
          == if j < |s.responders| && p < Written(s.responders[j].at) then 1 else 0)
  }

  lemma OneMoreFrame(script: seq<Frame>, k: nat, id: StreamId)
    requires k < |script|
    ensures EndsIn(script[..k + 1], id) == EndsIn(script[..k], id) + (if Ends(script[k], id) then 1 else 0)
  {
    assert script[..k + 1][..k] == script[..k];
  }

  lemma {:induction false} SameStreams(rs: seq<Responder>, j: nat, r: Responder, id: StreamId)
    requires j < |rs| && r.stream == rs[j].stream
    ensures RespondersFor(rs[j := r], id) == RespondersFor(rs, id)
    decreases |rs|
  {
    var n := |rs| - 1;
    if j < n {
      assert rs[j := r][..n] == rs[..n][j := r];
      SameStreams(rs[..n], j, r, id);
    } else {
      assert rs[j := r][..n] == rs[..n];
    }
  }

  lemma OneMoreSent(wire: seq<Sent>, y: Sent, x: Sent)
    ensures Occurrences(wire + [y], x) == Occurrences(wire, x) + (if y == x then 1 else 0)
  {
    assert (wire + [y])[..|wire|] == wire;
  }

  lemma AccountedRead(script: seq<Frame>, s: State)
    requires Enabled(script, s, ReadFrame) && Accounted(script, s)
    ensures Accounted(script, Apply(script, s, ReadFrame))
  {
    var t := Apply(script, s, ReadFrame);
    forall id ensures RespondersFor(t.responders, id) + Pending(t.main, id) == EndsIn(script[..t.read], id) {
      OneMoreFrame(script, s.read, id);
      assert RespondersFor(s.responders, id) + Pending(s.main, id) == EndsIn(script[..s.read], id);
    }
  }

  lemma AccountedStart(script: seq<Frame>, s: State)
    requires Enabled(script, s, StartResponder) && Accounted(script, s)
    ensures Accounted(script, Apply(script, s, StartResponder))
  {
    var t := Apply(script, s, StartResponder);
    forall id ensures RespondersFor(t.responders, id) + Pending(t.main, id) == EndsIn(script[..t.read], id) {
      assert t.responders[..|s.responders|] == s.responders;
      assert RespondersFor(s.responders, id) + Pending(s.main, id) == EndsIn(script[..s.read], id);
    }
  }

  /** A responder's step changes no stream's count of responders. */
  lemma RespondersStay(script: seq<Frame>, s: State, step: Step, id: StreamId)
    requires step.Respond? && Enabled(script, s, step)
    ensures RespondersFor(Apply(script, s, step).responders, id) == RespondersFor(s.responders, id)
  {
    hide RespondersFor;
    SameStreams(s.responders, step.call, Apply(script, s, step).responders[step.call], id);
  }

  lemma OccurrencesMove(script: seq<Frame>, s: State, step: Step, k: nat, p: nat)
    requires step.Respond? && Enabled(script, s, step) && p < 3
    requires Occurrences(s.wire, Answer(k, p)) == if k < |s.responders| && p < Written(s.responders[k].at) then 1 else 0
    ensures var t := Apply(script, s, step);
            Occurrences(t.wire, Answer(k, p)) == if k < |t.responders| && p < Written(t.responders[k].at) then 1 else 0
  {
    hide Occurrences;
    var j := step.call;
    if step.act.WriteAnswer? { OneMoreSent(s.wire, Answer(j, s.responders[j].at.frames), Answer(k, p)); }
  }

  lemma AccountedResponder(script: seq<Frame>, s: State, step: Step)
    requires step.Respond? && Enabled(script, s, step) && Accounted(script, s)
    ensures Accounted(script, Apply(script, s, step))
  {
    hide RespondersFor, EndsIn, Occurrences;
    var t := Apply(script, s, step);
    assert s.responders[step.call] in s.responders;
    forall id ensures RespondersFor(t.responders, id) + Pending(t.main, id) == EndsIn(script[..t.read], id) {
      RespondersStay(script, s, step, id);
      assert RespondersFor(s.responders, id) + Pending(s.main, id) == EndsIn(script[..s.read], id);
    }
    forall k: nat, p: nat | p < 3
      ensures Occurrences(t.wire, Answer(k, p)) == if k < |t.responders| && p < Written(t.responders[k].at) then 1 else 0
    {
      OccurrencesMove(script, s, step, k, p);
    }
  }

  lemma AccountedSend(script: seq<Frame>, s: State)
    requires Enabled(script, s, SendOwn) && Accounted(script, s)
    ensures Accounted(script, Apply(script, s, SendOwn))
  {
    var t := Apply(script, s, SendOwn);
    hide RespondersFor, EndsIn;
    forall id ensures RespondersFor(t.responders, id) + Pending(t.main, id) == EndsIn(script[..t.read], id) {
      assert RespondersFor(s.responders, id) + Pending(s.main, id) == EndsIn(script[..s.read], id);
    }
    forall k: nat, p: nat | p < 3
      ensures Occurrences(t.wire, Answer(k, p))
           == if k < |t.responders| && p < Written(t.responders[k].at) then 1 else 0
    {
      OneMoreSent(s.wire, Control(s.main.own), Answer(k, p));
    }
  }

  lemma AccountedStep(script: seq<Frame>, s: State, step: Step)
    requires Enabled(script, s, step) && Accounted(script, s)
    ensures Accounted(script, Apply(script, s, step))
  {
    match step
    case ReadFrame => AccountedRead(script, s);
    case StartResponder => AccountedStart(script, s);
    case SendOwn => AccountedSend(script, s);
    case Respond(_, _) => AccountedResponder(script, s, step);
    case _ =>
      var t := Apply(script, s, step);
      assert forall id :: Pending(t.main, id) == Pending(s.main, id);
  }

  lemma {:induction false} RunAccounted(script: seq<Frame>, steps: seq<Step>)
    requires Possible(script, steps)
    ensures Accounted(script, Exec(script, steps))
    decreases |steps|
  {
    if steps != [] {
      hide Accounted, Enabled, Apply;
      var before := steps[..|steps| - 1];
      RunAccounted(script, before);
      AccountedStep(script, Exec(script, before), steps[|steps| - 1]);
    }
  }

  /** Whatever the client does and however the goroutines interleave: after the wait there is one
      responder for every END_STREAM, and each put its three frames on the wire exactly once. */
  lemma EveryEndIsAnsweredOnce(script: seq<Frame>, steps: seq<Step>)
    requires Possible(script, steps) && Exec(script, steps).main.Closed?
    ensures var s := Exec(script, steps);
            && (forall id :: RespondersFor(s.responders, id) == EndsIn(script, id))
            && (forall j: nat, p: nat | j < |s.responders| && p < 3 :: Occurrences(s.wire, Answer(j, p)) == 1)
            && Whole(s.wire)
  {
    hide Exec, RespondersFor, EndsIn, Occurrences;
    RunAccounted(script, steps);
    AnswersAreContiguous(script, steps);
    var s := Exec(script, steps);
    assert script[..|script|] == script;
    forall id ensures RespondersFor(s.responders, id) == EndsIn(script, id) {
      assert RespondersFor(s.responders, id) + Pending(s.main, id) == EndsIn(script[..s.read], id);
    }
    forall j: nat, p: nat | j < |s.responders| && p < 3 ensures Occurrences(s.wire, Answer(j, p)) == 1 {
      assert s.responders[j] in s.responders;
    }
    assert forall j :: 0 <= j < |s.responders| ==> s.responders[j].at.Finished?;
  }

  // ---- the loop's own frames ----

  /** What a frame read obliges the loop to write: an acknowledgement of SETTINGS that are none, as
      much window as DATA used up, and a PING that is no answer sent back. */
  function Owes(f: Frame): seq<Own> {
    if f.Settings? && !f.ack then [SettingsAck]
    else if f.Data? && f.length > 0 then [WindowUpdate(f.length)]
    else if f.Ping? && !f.ack then [PingAck(f.data)]
    else []
  }

  function Owed(frames: seq<Frame>): seq<Own> {
    if frames == [] then [] else Owed(frames[..|frames| - 1]) + Owes(frames[|frames| - 1])
  }

  /** The loop's own frames on the wire, in order. */
  function OwnFrames(wire: seq<Sent>): seq<Own> {
    if wire == [] then []
    else
      var last := wire[|wire| - 1];
      OwnFrames(wire[..|wire| - 1]) + (if last.Control? then [last.own] else [])
  }

  function Due(m: Main): seq<Own> {
    if m.Sending? then [m.own] else []
  }

  ghost predicate Paid(script: seq<Frame>, s: State) {
    s.read <= |script| && OwnFrames(s.wire) + Due(s.main) == Owed(script[..s.read])
  }

  lemma PaidOnRead(script: seq<Frame>, s: State)
    requires Enabled(script, s, ReadFrame) && Paid(script, s)
    ensures Paid(script, Apply(script, s, ReadFrame))
  {
    assert script[..s.read + 1][..s.read] == script[..s.read];
    assert Due(OnFrame(script[s.read])) == Owes(script[s.read]);
    assert OwnFrames(s.wire) + [] == OwnFrames(s.wire);
  }

  lemma OwnAppends(wire: seq<Sent>, x: Sent)
    ensures OwnFrames(wire + [x]) == OwnFrames(wire) + (if x.Control? then [x.own] else [])
  {
    assert (wire + [x])[..|wire|] == wire;
  }

  lemma PaidOnSend(script: seq<Frame>, s: State)
    requires Enabled(script, s, SendOwn) && Paid(script, s)
    ensures Paid(script, Apply(script, s, SendOwn))
  {
    OwnAppends(s.wire, Control(s.main.own));
    hide OwnFrames, Owed;
    var frames := OwnFrames(s.wire + [Control(s.main.own)]);
    assert frames + [] == frames;
  }

  lemma PaidOnRespond(script: seq<Frame>, s: State, step: Step)
    requires step.Respond? && Enabled(script, s, step) && Paid(script, s)
    ensures Paid(script, Apply(script, s, step))
  {
    hide Owed;
    if step.act.WriteAnswer? {
      OwnAppends(s.wire, Answer(step.call, s.responders[step.call].at.frames));
      hide OwnFrames;
      assert OwnFrames(s.wire) + [] == OwnFrames(s.wire);
    }
  }

  lemma PaidStep(script: seq<Frame>, s: State, step: Step)
    requires Enabled(script, s, step) && Paid(script, s)
    ensures Paid(script, Apply(script, s, step))
  {
    hide OwnFrames, Owed;
    match step
    case ReadFrame => PaidOnRead(script, s);
    case SendOwn => PaidOnSend(script, s);
    case Respond(_, _) => PaidOnRespond(script, s, step);
    case _ =>
  }

  /** In every interleaving the loop's own frames go out in the order they were asked for, each once,
      and when the connection is done none is owed. */
  lemma {:induction false} OwnFramesArePaid(script: seq<Frame>, steps: seq<Step>)
    requires Possible(script, steps)
    ensures var s := Exec(script, steps);
            && s.read <= |script| && OwnFrames(s.wire) + Due(s.main) == Owed(script[..s.read])
            && (s.main.Closed? ==> OwnFrames(s.wire) == Owed(script))
    decreases |steps|
  {
    if steps != [] {
      var before := steps[..|steps| - 1];
      OwnFramesArePaid(script, before);
      hide Enabled, Apply, OwnFrames, Owed;
      PaidStep(script, Exec(script, before), steps[|steps| - 1]);
    }
    RunAccounted(script, steps);
    hide Exec, Owed, OwnFrames;
    var s := Exec(script, steps);
    assert script[..|script|] == script && OwnFrames(s.wire) + [] == OwnFrames(s.wire);
  }

  // ---- the wait is always reached ----

  function Work(rs: seq<Responder>): nat {
    if rs == [] then 0 else Work(rs[..|rs| - 1]) + (9 - WorkDone(rs[|rs| - 1].at))
  }

  function WorkDone(p: Progress): (n: nat)
    ensures n <= 9
  {
    match p
    case Sleeping => 0
    case Writing(n) => if n < 4 then n + 1 else 4
    case Deleting => 5
    case Deleted => 6
    case Releasing => 7
    case Returning => 8
    case Finished => 9
  }

  function MainWork(m: Main): nat {
    match m
    case Reading => 2
    case Locking(_, _) => 15
    case Inside(_, _) => 14
    case Recorded(_, _) => 13
    case Starting(_) => 12
    case Sending(_, ReadOn) => 3
    case Sending(_, StartAfter(_)) => 13
    case Waiting => 1
    case Closed => 0
  }

  /** How much of a run can still be ahead. */
  function Measure(script: seq<Frame>, s: State): nat
    requires s.read <= |script|
  {
    14 * (|script| - s.read) + MainWork(s.main) + Work(s.responders)
  }

  lemma {:induction false} WorkUpdate(rs: seq<Responder>, j: nat, r: Responder)
    requires j < |rs|
    ensures Work(rs[j := r]) == Work(rs) + WorkDone(rs[j].at) - WorkDone(r.at)
    decreases |rs|
  {
    var n := |rs| - 1;
    if j < n {
      assert rs[j := r][..n] == rs[..n][j := r];
      WorkUpdate(rs[..n], j, r);
    } else {
      assert rs[j := r][..n] == rs[..n];
    }
  }

  /** Every step uses up some of what is ahead, so no run goes on for ever. */
  lemma StepsRunOut(script: seq<Frame>, s: State, step: Step)
    requires s.read <= |script| && Enabled(script, s, step)
    ensures Apply(script, s, step).read <= |script|
    ensures Measure(script, Apply(script, s, step)) < Measure(script, s)
  {
    var t := Apply(script, s, step);
    match step
    case StartResponder => assert t.responders[..|s.responders|] == s.responders;
    case Respond(_, _) => RespondRunsOut(script, s, step);
    case _ => assert t.responders == s.responders;
  }

  lemma RespondRunsOut(script: seq<Frame>, s: State, step: Step)
    requires s.read <= |script| && step.Respond? && Enabled(script, s, step)
    ensures var t := Apply(script, s, step); t.read == s.read && Measure(script, t) < Measure(script, s)
  {
    hide Work;
    WorkUpdate(s.responders, step.call, Apply(script, s, step).responders[step.call]);
  }

  /** No goroutine and no loop waits for ever: whoever is inside the map's lock can go on, then whoever
      has the write lock, then anybody. The loop never holds one of the two while it takes the other,
      and a responder takes them in one order. */
  lemma SomethingCanStep(script: seq<Frame>, steps: seq<Step>) returns (step: Step)
    requires Possible(script, steps) && !Exec(script, steps).main.Closed?
    ensures Enabled(script, Exec(script, steps), step)
  {
    RunAccounted(script, steps);
    AnswersAreContiguous(script, steps);
    hide Exec;
    var s := Exec(script, steps);
    if s.mapper == LOOP {
      step := if s.main.Inside? then RecordStream else FreeMap;
    } else if s.mapper != NOBODY {
      step := Respond(s.mapper, if s.responders[s.mapper].at.Deleting? then DeleteStream else FreeMapFirst);
    } else if s.holder != NOBODY {
      var at := s.responders[s.holder].at;
      step := Respond(s.holder, if at.Releasing? then FreeLock else if at.frames < 3 then WriteAnswer else TakeMapToo);
    } else {
      match s.main
      case Reading => step := if s.read < |script| then ReadFrame else HangUp;
      case Locking(_, _) => step := TakeMap;
      case Starting(_) => step := StartResponder;
      case Sending(_, _) => step := SendOwn;
      case Waiting =>
        if forall r <- s.responders :: r.at.Finished? {
          step := WaitDone;
        } else {
          var r :| r in s.responders && !r.at.Finished?;
          var j: nat :| j < |s.responders| && s.responders[j] == r;
          assert !HasLock(s.responders[j].at);
          step := Respond(j, if r.at.Sleeping? then TakeLock else SayDone);
        }
    }
  }

  // ---- a client that keeps the stream states of RFC 9113 section 5.1 ----

  predicate Speaks(f: Frame, id: StreamId) {
    (f.Headers? || f.Data?) && f.stream == id
  }

  /** Nothing on a stream after it ends, no data before its headers, and every stream ends. */
  ghost predicate LegalClient(script: seq<Frame>) {
    && (forall i, j, id :: 0 <= i < j < |script| && Ends(script[i], id) ==> !Speaks(script[j], id))
    && (forall j :: 0 <= j < |script| && script[j].Data? ==>
          exists i :: 0 <= i < j && script[i].Headers? && script[i].stream == script[j].stream)
    && (forall i :: 0 <= i < |script| && script[i].Headers? ==>
          exists j :: 0 <= j < |script| && Ends(script[j], script[i].stream))
  }

  /** The streams a client has opened. */
  ghost function Opened(frames: seq<Frame>): set<StreamId> {
    set i | 0 <= i < |frames| && frames[i].Headers? :: frames[i].stream
  }

  /** Its stream is out of the map. */
  predicate IsDeleted(at: Progress) { at.Deleted? || at.Releasing? || at.Returning? || at.Finished? }

  /** The streams answered so far as to be out of the map. */
  ghost function Answered(rs: seq<Responder>): set<StreamId> {
    set i | 0 <= i < |rs| && IsDeleted(rs[i].at) :: rs[i].stream
  }

  lemma {:induction false} SomeEnd(frames: seq<Frame>, id: StreamId) returns (i: nat)
    requires EndsIn(frames, id) > 0
    ensures i < |frames| && Ends(frames[i], id)
    decreases |frames|
  {
    var n := |frames| - 1;
    if Ends(frames[n], id) { return n; }
    i := SomeEnd(frames[..n], id);
  }

  lemma {:induction false} EndCounts(frames: seq<Frame>, i: nat, id: StreamId)
    requires i < |frames| && Ends(frames[i], id)
    ensures EndsIn(frames, id) > 0
    decreases |frames|
  {
    if i < |frames| - 1 { EndCounts(frames[..|frames| - 1], i, id); }
  }

  lemma {:induction false} EndsAtMostOnce(frames: seq<Frame>, id: StreamId)
    requires forall i, j :: 0 <= i < j < |frames| && Ends(frames[i], id) ==> !Speaks(frames[j], id)
    ensures EndsIn(frames, id) <= 1
    decreases |frames|
  {
    if frames != [] {
      var n := |frames| - 1;
      EndsAtMostOnce(frames[..n], id);
      if Ends(frames[n], id) && EndsIn(frames[..n], id) > 0 {
        var i := SomeEnd(frames[..n], id);
        assert false;
      }
    }
  }

  lemma {:induction false} ResponderCounts(rs: seq<Responder>, j: nat)
    requires j < |rs|
    ensures RespondersFor(rs, rs[j].stream) > 0
    decreases |rs|
  {
    if j < |rs| - 1 { ResponderCounts(rs[..|rs| - 1], j); }
  }

  lemma {:induction false} SomeResponder(rs: seq<Responder>, id: StreamId) returns (j: nat)
    requires RespondersFor(rs, id) > 0
    ensures j < |rs| && rs[j].stream == id
    decreases |rs|
  {
    var n := |rs| - 1;
    if rs[n].stream == id { return n; }
    j := SomeResponder(rs[..n], id);
  }

  /** How many frames the map knows of: a HEADERS frame is read before it is recorded. */
  function Known(s: State): nat {
    if (s.main.Locking? || s.main.Inside?) && s.read > 0 then s.read - 1 else s.read
  }

  /** For such a client the map holds the streams opened and not yet answered, and calls are the
      streams opened. */
  ghost predicate Tracked(script: seq<Frame>, s: State) {
    && s.read <= |script|
    && (s.main.Locking? || s.main.Inside? ==>
          s.read > 0 && script[s.read - 1] == Headers(s.main.stream, s.main.endStream))
    && s.open == Opened(script[..Known(s)]) - Answered(s.responders)
    && s.calls == |Opened(script[..Known(s)])|
  }

  lemma OpenedGrows(script: seq<Frame>, k: nat)
    requires k < |script|
    ensures Opened(script[..k + 1]) == Opened(script[..k]) + (if script[k].Headers? then {script[k].stream} else {})
  {
    var a, b := script[..k + 1], script[..k];
    forall id | id in Opened(a) ensures id in Opened(b) || (script[k].Headers? && id == script[k].stream) {
      var i :| 0 <= i < |a| && a[i].Headers? && a[i].stream == id;
      if i < k { assert b[i] == a[i]; }
    }
    forall id | id in Opened(b) ensures id in Opened(a) {
      var i :| 0 <= i < |b| && b[i].Headers? && b[i].stream == id;
      assert a[i] == b[i];
    }
    if script[k].Headers? { assert a[k] == script[k]; }
  }

  lemma AnsweredHasResponder(rs: seq<Responder>, id: StreamId)
    requires id in Answered(rs)
    ensures RespondersFor(rs, id) > 0
  {
    var j :| 0 <= j < |rs| && IsDeleted(rs[j].at) && rs[j].stream == id;
    ResponderCounts(rs, j);
  }

  /** On a stream of a legal client nothing ended before a frame on it. */
  lemma NothingEndedYet(script: seq<Frame>, k: nat, id: StreamId)
    requires LegalClient(script) && k < |script| && Speaks(script[k], id)
    ensures EndsIn(script[..k], id) == 0
  {
    hide EndsIn;
    if EndsIn(script[..k], id) > 0 {
      var i := SomeEnd(script[..k], id);
      assert false;
    }
  }

  /** A HEADERS frame is recorded before any answer to its stream. */
  lemma NotYetAnswered(script: seq<Frame>, s: State)
    requires LegalClient(script) && Accounted(script, s) && Tracked(script, s) && s.main.Inside?
    ensures s.main.stream !in Answered(s.responders)
  {
    var id, k := s.main.stream, s.read - 1;
    NothingEndedYet(script, k, id);
    OneMoreFrame(script, k, id);
    assert RespondersFor(s.responders, id) + Pending(s.main, id) == EndsIn(script[..s.read], id);
    hide LegalClient, Accounted, Answered, RespondersFor, EndsIn;
    if id in Answered(s.responders) { AnsweredHasResponder(s.responders, id); }
  }

  lemma RegisterTracks(s: State, id: StreamId, ever: set<StreamId>, done: set<StreamId>)
    requires s.open == ever - done && s.calls == |ever| && id !in done
    ensures Register(s, id).open == ever + {id} - done
    ensures Register(s, id).calls == |ever + {id}|
  {
    if id in s.open {
      assert ever + {id} == ever;
    } else {
      assert id !in ever;
      assert |ever + {id}| == |ever| + 1;
      assert (ever - done) + {id} == ever + {id} - done;
    }
  }

  /** Reading leaves the map as it was: a HEADERS frame is still to be recorded, and no other counts. */
  lemma TrackedRead(script: seq<Frame>, s: State)
    requires Tracked(script, s) && Enabled(script, s, ReadFrame)
    ensures Tracked(script, Apply(script, s, ReadFrame))
  {
    OpenedGrows(script, s.read);
    hide Opened, Answered, Apply;
    AfterRead(script, s);
    assert Opened(script[..s.read]) + {} == Opened(script[..s.read]);
  }

  lemma AfterRead(script: seq<Frame>, s: State)
    requires Enabled(script, s, ReadFrame)
    ensures var t, f := Apply(script, s, ReadFrame), script[s.read];
            && t == s.(main := OnFrame(f), read := s.read + 1)
            && (if f.Headers? then t.main == Locking(f.stream, f.endStream) else !t.main.Locking? && !t.main.Inside?)
  {
  }

  lemma TrackedRecord(script: seq<Frame>, s: State)
    requires LegalClient(script) && Accounted(script, s) && Tracked(script, s) && Enabled(script, s, RecordStream)
    ensures Tracked(script, Apply(script, s, RecordStream))
  {
    hide Accounted, LegalClient, Opened, Answered, Register, Apply;
    NotYetAnswered(script, s);
    OpenedGrows(script, s.read - 1);
    RecordEffect(script, s);
    var id, ever, done := s.main.stream, Opened(script[..s.read - 1]), Answered(s.responders);
    assert s.open == ever - done && s.calls == |ever|;
    RegisterTracks(s, id, ever, done);
  }

  lemma RecordEffect(script: seq<Frame>, s: State)
    requires Enabled(script, s, RecordStream)
    ensures var t, r := Apply(script, s, RecordStream), Register(s, s.main.stream);
            && t.main.Recorded? && t.read == s.read && t.responders == s.responders
            && t.open == r.open && t.calls == r.calls
  {
  }

  lemma AnsweredUpdate(rs: seq<Responder>, j: nat, r: Responder)
    requires j < |rs| && r.stream == rs[j].stream && (IsDeleted(rs[j].at) ==> IsDeleted(r.at))
    ensures Answered(rs[j := r]) == Answered(rs) + (if IsDeleted(r.at) then {r.stream} else {})
  {
    var qs := rs[j := r];
    forall id | id in Answered(rs) ensures id in Answered(qs) {
      var i :| 0 <= i < |rs| && IsDeleted(rs[i].at) && rs[i].stream == id;
      assert IsDeleted(qs[i].at) && qs[i].stream == id;
    }
    forall id | id in Answered(qs) ensures id in Answered(rs) || (IsDeleted(r.at) && id == r.stream) {
      var i :| 0 <= i < |qs| && IsDeleted(qs[i].at) && qs[i].stream == id;
      if i != j { assert rs[i] == qs[i]; }
    }
    if IsDeleted(r.at) { assert qs[j] == r; }
  }

  lemma TrackedStart(script: seq<Frame>, s: State)
    requires Tracked(script, s) && Enabled(script, s, StartResponder)
    ensures Tracked(script, Apply(script, s, StartResponder))
  {
    hide Opened;
    var t := Apply(script, s, StartResponder);
    assert forall i :: 0 <= i < |s.responders| ==> t.responders[i] == s.responders[i];
    assert Answered(t.responders) == Answered(s.responders);
  }

  lemma TrackedRespond(script: seq<Frame>, s: State, step: Step)
    requires Tracked(script, s) && step.Respond? && Enabled(script, s, step)
    ensures Tracked(script, Apply(script, s, step))
  {
    hide Opened, Answered;
    AnsweredUpdate(s.responders, step.call, Apply(script, s, step).responders[step.call]);
    AlreadyAnswered(s.responders, step.call);
  }

  lemma TrackedStep(script: seq<Frame>, s: State, step: Step)
    requires LegalClient(script) && Accounted(script, s) && Tracked(script, s) && Enabled(script, s, step)
    ensures Tracked(script, Apply(script, s, step))
  {
    hide LegalClient, Accounted, Opened, Answered;
    match step
    case ReadFrame => TrackedRead(script, s);
    case RecordStream => TrackedRecord(script, s);
    case StartResponder => TrackedStart(script, s);
    case Respond(_, _) => TrackedRespond(script, s, step);
    case _ =>
  }

  lemma AlreadyAnswered(rs: seq<Responder>, j: nat)
    requires j < |rs|
    ensures IsDeleted(rs[j].at) ==> Answered(rs) + {rs[j].stream} == Answered(rs)
  {
  }

  lemma {:induction false} RunTracked(script: seq<Frame>, steps: seq<Step>)
    requires LegalClient(script) && Possible(script, steps)
    ensures Tracked(script, Exec(script, steps))
    decreases |steps|
  {
    if steps != [] {
      hide Accounted, Tracked, LegalClient, Enabled, Apply;
      var before := steps[..|steps| - 1];
      RunTracked(script, before);
      RunAccounted(script, before);
      TrackedStep(script, Exec(script, before), steps[|steps| - 1]);
    } else {
      assert Opened(script[..0]) == {};
      assert Answered(START.responders) == {};
    }
  }

  /** When the client ends each stream once, then after the wait every stream it opened was one
      call, was answered by exactly one responder, and none is left open. */
  lemma LegalClientIsAnswered(script: seq<Frame>, steps: seq<Step>)
    requires LegalClient(script) && Possible(script, steps) && Exec(script, steps).main.Closed?
    ensures var s := Exec(script, steps);
            && s.open == {}
            && s.calls == |Opened(script)|
            && forall id <- Opened(script) :: RespondersFor(s.responders, id) == 1
  {
    hide Exec;
    RunTracked(script, steps);
    RunAccounted(script, steps);
    EveryEndIsAnsweredOnce(script, steps);
    var s := Exec(script, steps);
    assert script[..|script|] == script;
    forall id | id in Opened(script)
      ensures RespondersFor(s.responders, id) == 1 && id in Answered(s.responders)
    {
      var i :| 0 <= i < |script| && script[i].Headers? && script[i].stream == id;
      var j :| 0 <= j < |script| && Ends(script[j], script[i].stream);
      EndCounts(script, j, id);
      EndsAtMostOnce(script, id);
      assert RespondersFor(s.responders, id) == EndsIn(script, id);
      var k := SomeResponder(s.responders, id);
      assert s.responders[k] in s.responders;
    }
  }
}
