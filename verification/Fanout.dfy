/** Counting a mark in many byte streams at once, each arriving in pieces cut anywhere
    (bench/fanout.py:28, 79-80, 99-121). */
module Fanout {
  import opened Bytes

  // "data: event"
  const MARK: seq<byte> := [100, 97, 116, 97, 58, 32, 101, 118, 101, 110, 116]

  predicate MarkAt(s: seq<byte>, i: int) {
    0 <= i && i + 11 <= |s| && s[i..i + 11] == MARK
  }

  lemma MarkReads()
    ensures |MARK| == |"data: event"| && forall i | 0 <= i < |MARK| :: MARK[i] == "data: event"[i] as int
  {
  }

  /** How many places the mark is at, overlapping or not. */
  function Occurrences(s: seq<byte>): nat {
    if |s| < 11 then 0 else (if MarkAt(s, 0) then 1 else 0) + Occurrences(s[1..])
  }

  /** `data.count(MARK)`: from the left, never looking inside a mark already counted. */
  function Count(data: seq<byte>): nat {
    if |data| < 11 then 0
    else if MarkAt(data, 0) then 1 + Count(data[11..])
    else Count(data[1..])
  }

  /** The mark's first letter is nowhere else in it, so two marks cannot overlap. */
  lemma NoOverlap(s: seq<byte>, k: int)
    requires MarkAt(s, 0) && 0 < k < 11
    ensures !MarkAt(s, k)
  {
    assert s[k] == s[..11][k] == MARK[k];
    assert MARK[k] != MARK[0];
    if k + 11 <= |s| {
      assert s[k..k + 11][0] == s[k];
    }
  }

  lemma {:induction false} SkipsNothing(s: seq<byte>, k: nat)
    requires MarkAt(s, 0) && 1 <= k <= 11
    ensures Occurrences(s[k..]) == Occurrences(s[11..])
    decreases 11 - k
  {
    if k < 11 {
      NoOverlap(s, k);
      if |s[k..]| >= 11 {
        assert s[k..][..11] == s[k..k + 11] && s[k..][1..] == s[k + 1..];
      } else {
        assert |s[11..]| < 11;
      }
      if |s[k..]| >= 11 { SkipsNothing(s, k + 1); }
    }
  }

  /** Counting from the left misses no occurrence. */
  lemma {:induction false} CountsAll(data: seq<byte>)
    ensures Count(data) == Occurrences(data)
    decreases |data|
  {
    if |data| >= 11 {
      if MarkAt(data, 0) {
        SkipsNothing(data, 1);
        CountsAll(data[11..]);
      } else {
        CountsAll(data[1..]);
      }
    }
  }

  /** `data[-(len(MARK) - 1):]`. */
  function Tail(s: seq<byte>): seq<byte> {
    if |s| < 10 then s else s[|s| - 10..]
  }

  /** What a new piece adds is the marks in it and the ten octets before it. */
  lemma {:induction false} TailSuffices(before: seq<byte>, chunk: seq<byte>)
    ensures Occurrences(before + chunk) == Occurrences(before) + Occurrences(Tail(before) + chunk)
    ensures Tail(Tail(before) + chunk) == Tail(before + chunk)
    decreases |before|
  {
    if |before| > 10 {
      TailSuffices(before[1..], chunk);
      assert (before + chunk)[..11] == before[..11] && (before + chunk)[1..] == before[1..] + chunk;
    }
  }

  function Places(s: seq<byte>): set<int> {
    set i | 0 <= i < |s| && MarkAt(s, i)
  }

  lemma PlacesGrow(s: seq<byte>)
    requires |s| >= 11
    ensures var n := |s| - 1;
            && Places(s) == Places(s[..n]) + (if MarkAt(s, n - 10) then {n - 10} else {})
            && n - 10 !in Places(s[..n])
  {
    var n := |s| - 1;
    forall i | 0 <= i && i + 11 <= n ensures MarkAt(s[..n], i) <==> MarkAt(s, i) {
      assert s[i..i + 11] == s[..n][i..i + 11];
    }
  }

  /** The count is of the places themselves. */
  lemma {:induction false} OccurrencesAreThePlaces(s: seq<byte>)
    ensures Occurrences(s) == |Places(s)|
    decreases |s|
  {
    hide MarkAt, Places, Occurrences;
    if |s| < 11 {
      NoPlaces(s);
    } else {
      var n := |s| - 1;
      OccurrencesAreThePlaces(s[..n]);
      TailSuffices(s[..n], s[n..]);
      PlacesGrow(s);
      LastPlace(s);
      assert s[..n] + s[n..] == s && Tail(s[..n]) + s[n..] == s[n - 10..];
    }
  }

  lemma NoPlaces(s: seq<byte>)
    requires |s| < 11
    ensures Places(s) == {} && Occurrences(s) == 0
  {
  }

  lemma LastPlace(s: seq<byte>)
    requires |s| >= 11
    ensures Occurrences(s[|s| - 11..]) == if MarkAt(s, |s| - 11) then 1 else 0
  {
    var t := s[|s| - 11..];
    assert t[0..11] == s[|s| - 11..|s|];
    assert Occurrences(t[1..]) == 0;
  }

  // ---- the loop ----

  /** One socket found ready: the piece it gave, empty when it closed. */
  datatype Ready = Ready(socket: int, chunk: seq<byte>)

  /** All that has come from one socket. */
  function Heard(events: seq<Ready>, socket: int): seq<byte> {
    if events == [] then []
    else Heard(events[..|events| - 1], socket)
         + if events[|events| - 1].socket == socket then events[|events| - 1].chunk else []
  }

  class Tally {
    var counts: map<int, nat>
    var tails: map<int, seq<byte>>

    constructor (sockets: set<int>)
      ensures Holds(sockets, [])
    {
      counts, tails := map s | s in sockets :: 0, map s | s in sockets :: [];
    }

    /** Every socket's count is the marks in all that has come from it. */
    ghost predicate Holds(sockets: set<int>, events: seq<Ready>)
      reads this
    {
      && counts.Keys == sockets && tails.Keys == sockets
      && forall s <- sockets :: counts[s] == Occurrences(Heard(events, s)) && tails[s] == Tail(Heard(events, s))
    }

    method Receive(s: int, chunk: seq<byte>, ghost sockets: set<int>, ghost events: seq<Ready>)
      requires Holds(sockets, events) && s in sockets
      modifies this
      ensures Holds(sockets, events + [Ready(s, chunk)])
    {
      ghost var after := events + [Ready(s, chunk)];
      assert after[..|events|] == events;
      forall t <- sockets ensures Heard(after, t) == if t == s then Heard(events, t) + chunk else Heard(events, t) {
        assert Heard(events, t) + [] == Heard(events, t);
      }
      if chunk == [] {
        assert Heard(events, s) + chunk == Heard(events, s);
        return;
      }
      var data := tails[s] + chunk;
      CountsAll(data);
      TailSuffices(Heard(events, s), chunk);
      counts := counts[s := counts[s] + Count(data)];
      tails := tails[s := Tail(data)];
    }
  }

  /** Whatever order the sockets become ready in and however the streams are cut, each count ends
      as the number of marks in its whole stream. */
  method Run(sockets: set<int>, events: seq<Ready>) returns (counts: map<int, nat>)
    requires forall e <- events :: e.socket in sockets
    ensures counts.Keys == sockets
    ensures forall s <- sockets :: counts[s] == |Places(Heard(events, s))|
  {
    hide Occurrences, Places, Heard, MarkAt;
    var tally := new Tally(sockets);
    for k := 0 to |events|
      invariant tally.Holds(sockets, events[..k])
    {
      assert events[..k + 1] == events[..k] + [Ready(events[k].socket, events[k].chunk)];
      assert events[k] in events;
      tally.Receive(events[k].socket, events[k].chunk, sockets, events[..k]);
    }
    assert events[..|events|] == events;
    counts := tally.counts;
    forall s <- sockets ensures counts[s] == |Places(Heard(events, s))| {
      OccurrencesAreThePlaces(Heard(events, s));
    }
  }
}
