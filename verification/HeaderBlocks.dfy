/** A header block from its frames to its record (spike/grpc/probe/main.go:156-189, 235-261):
    fragments put back together, decoded against the dynamic table of RFC 7541, and the octets a
    client's insertions cost. */
module HeaderBlocks {
  import opened Bytes
  import opened Common
  import opened Hpack
  import HpackScanner
  import ScanEnds

  // ---- the decoder RFC 7541 prescribes ----

  datatype Header = Header(name: seq<byte>, value: seq<byte>)

  /** The static table and the Huffman code are tables this model does not spell out. */
  datatype Env = Env(fixed: seq<Header>, unhuffman: seq<byte> -> Option<seq<byte>>)

  /** The dynamic table, newest entry first, its size limit, and the limit's own limit. */
  datatype Decoder = Decoder(entries: seq<Header>, max: nat, allowed: nat)

  /** Section 4.1: an entry costs its octets and 32 more. */
  function Size(f: Header): nat {
    |f.name| + |f.value| + 32
  }

  function TableSize(entries: seq<Header>): nat {
    if entries == [] then 0 else Size(entries[0]) + TableSize(entries[1..])
  }

  /** Section 4.3: the oldest entries go until the rest fits. */
  function Fit(entries: seq<Header>, room: nat): (kept: seq<Header>)
    ensures kept <= entries && TableSize(kept) <= room
    decreases |entries|
  {
    if TableSize(entries) <= room then entries else Fit(entries[..|entries| - 1], room)
  }

  /** Section 4.4: an entry larger than the whole table empties it and is not kept. */
  function Insert(d: Decoder, f: Header): Decoder {
    if Size(f) > d.max then d.(entries := [])
    else d.(entries := [f] + Fit(d.entries, d.max - Size(f)))
  }

  function Entry(env: Env, d: Decoder, index: nat): Option<Header> {
    if index == 0 then None
    else if index <= |env.fixed| then Some(env.fixed[index - 1])
    else if index - 1 - |env.fixed| < |d.entries| then Some(d.entries[index - 1 - |env.fixed|])
    else None
  }

  function Text(env: Env, s: Str): Option<seq<byte>> {
    if s.huffman then env.unhuffman(s.octets) else Some(s.octets)
  }

  datatype Decoded = Bad | Silent(d: Decoder) | Emits(field: Header, d: Decoder)

  function DecodeRep(env: Env, d: Decoder, r: Rep): Decoded {
    match r
    case SizeUpdate(size) =>
      if size > d.allowed then Bad else Silent(Decoder(Fit(d.entries, size), size, d.allowed))
    case Indexed(index) =>
      (match Entry(env, d, index)
       case None => Bad
       case Some(f) => Emits(f, d))
    case Literally(kind, name, value) =>
      var n := match name
               case ByText(text) => Text(env, text)
               case ByIndex(index) => (match Entry(env, d, index) case None => None case Some(f) => Some(f.name));
      var v := Text(env, value);
      if n.None? || v.None? then Bad
      else
        var f := Header(n.value, v.value);
        Emits(f, if kind == Incremental then Insert(d, f) else d)
  }

  datatype Fields = Fields(fields: seq<Header>, d: Decoder)

  /** The fields of a block, or none at all when any representation in it is refused. */
  function DecodeAll(env: Env, d: Decoder, reps: seq<Rep>): Option<Fields>
    decreases |reps|
  {
    if reps == [] then Some(Fields([], d))
    else
      match DecodeRep(env, d, reps[0])
      case Bad => None
      case Silent(d') => DecodeAll(env, d', reps[1..])
      case Emits(f, d') =>
        match DecodeAll(env, d', reps[1..])
        case None => None
        case Some(rest) => Some(Fields([f] + rest.fields, rest.d))
  }

  /** Section 4.2: size updates come before the first field of a block or not at all. */
  predicate UpdatesFirst(reps: seq<Rep>) {
    forall i, j | 0 <= i < j < |reps| && reps[j].SizeUpdate? :: reps[i].SizeUpdate?
  }

  /** `DecodeFull`. */
  function DecodeFull(env: Env, d: Decoder, reps: seq<Rep>): Option<Fields> {
    if UpdatesFirst(reps) then DecodeAll(env, d, reps) else None
  }

  /** A literal's text is what was sent, or what the Huffman code makes of it when its bit is set; one
      of the incremental kind is inserted, and a name by index is the entry's. */
  lemma LiteralDecodes(env: Env, d: Decoder, kind: Literal, name: Name, value: Str)
    ensures var text := (s: Str) => if !s.huffman then Some(s.octets) else env.unhuffman(s.octets);
            var n := if name.ByText? then text(name.text)
                     else if 1 <= name.index <= |env.fixed + d.entries| then Some((env.fixed + d.entries)[name.index - 1].name)
                     else None;
            DecodeRep(env, d, Literally(kind, name, value)) ==
              if n.None? || text(value).None? then Bad
              else
                var f := Header(n.value, text(value).value);
                Emits(f, if kind.Incremental? then Insert(d, f) else d)
  {
    hide Insert;
    if name.ByIndex? { IndexNames(env, d, name.index); }
  }

  /** An indexed field is the entry itself, and the table stays as it is. */
  lemma IndexedDecodes(env: Env, d: Decoder, index: nat)
    ensures DecodeRep(env, d, Indexed(index)) ==
              if 1 <= index <= |env.fixed + d.entries| then Emits((env.fixed + d.entries)[index - 1], d) else Bad
  {
    IndexNames(env, d, index);
  }

  lemma DecodeOne(env: Env, d: Decoder, r: Rep)
    ensures DecodeRep(env, d, r).Bad? ==> DecodeAll(env, d, [r]) == None
    ensures DecodeRep(env, d, r).Silent? ==> DecodeAll(env, d, [r]) == Some(Fields([], DecodeRep(env, d, r).d))
    ensures DecodeRep(env, d, r).Emits? ==>
              DecodeAll(env, d, [r]) == Some(Fields([DecodeRep(env, d, r).field], DecodeRep(env, d, r).d))
  {
    hide DecodeRep;
    var rest := [r][1..];
    assert rest == [];
    assert forall d': Decoder :: DecodeAll(env, d', rest) == Some(Fields([], d'));
    if DecodeRep(env, d, r).Emits? {
      var f := DecodeRep(env, d, r).field;
      assert [f] + [] == [f];
    }
  }

  /** What a decoder does with the second part of a block after the first. */
  function Then(first: Option<Fields>, second: Option<Fields>): Option<Fields> {
    if first.None? || second.None? then None
    else Some(Fields(first.value.fields + second.value.fields, second.value.d))
  }

  /** A block is decoded representation by representation, each against the table the ones before left. */
  lemma {:induction false} DecodeJoins(env: Env, d: Decoder, a: seq<Rep>, b: seq<Rep>)
    ensures var first := DecodeAll(env, d, a);
            DecodeAll(env, d, a + b)
            == Then(first, if first.None? then None else DecodeAll(env, first.value.d, b))
    decreases |a|
  {
    hide DecodeRep;
    if a == [] {
      assert a + b == b;
      var second := DecodeAll(env, d, b);
      if second.Some? { assert [] + second.value.fields == second.value.fields; }
    } else {
      assert (a + b)[1..] == a[1..] + b;
      match DecodeRep(env, d, a[0])
      case Bad =>
      case Silent(d') => DecodeJoins(env, d', a[1..], b);
      case Emits(f, d') =>
        DecodeJoins(env, d', a[1..], b);
        var rest := DecodeAll(env, d', a[1..]);
        if rest.Some? && DecodeAll(env, rest.value.d, b).Some? {
          var more := DecodeAll(env, rest.value.d, b).value.fields;
          assert [f] + (rest.value.fields + more) == ([f] + rest.value.fields) + more;
        }
    }
  }

  /** Size updates in front are taken, and one after any field has the whole block refused. */
  lemma LateUpdateIsRefused(env: Env, d: Decoder, before: seq<Rep>, field: Rep, between: seq<Rep>, size: nat, after: seq<Rep>)
    requires !field.SizeUpdate?
    ensures DecodeFull(env, d, before + [field] + between + [SizeUpdate(size)] + after) == None
    ensures (forall r <- before :: r.SizeUpdate?) && (forall r <- between :: !r.SizeUpdate?) ==>
              DecodeFull(env, d, before + [field] + between) == DecodeAll(env, d, before + [field] + between)
  {
    hide DecodeAll;
    var late := before + [field] + between + [SizeUpdate(size)] + after;
    assert late[|before|] == field && late[|before| + 1 + |between|] == SizeUpdate(size);
  }

  // ---- the table, against section 4 and section 2.3 ----

  /** The octets of names and values alone. */
  function Octets(fields: seq<Header>): nat {
    if fields == [] then 0 else |fields[0].name| + |fields[0].value| + Octets(fields[1..])
  }

  /** Section 4.1: a table costs its octets and 32 an entry. */
  lemma {:induction false} TableCosts(entries: seq<Header>)
    ensures TableSize(entries) == Octets(entries) + 32 * |entries|
  {
    if entries != [] { TableCosts(entries[1..]); }
  }

  lemma {:induction false} SizeGrows(entries: seq<Header>, m: nat)
    requires m <= |entries|
    ensures TableSize(entries[..m]) <= TableSize(entries)
  {
    if m > 0 {
      assert entries[..m][1..] == entries[1..][..m - 1];
      SizeGrows(entries[1..], m - 1);
    }
  }

  /** Section 4.3: no more is evicted than has to be. */
  lemma {:induction false} FitIsLongest(entries: seq<Header>, room: nat, m: nat)
    requires m <= |entries| && TableSize(entries[..m]) <= room
    ensures m <= |Fit(entries, room)|
    decreases |entries|
  {
    assert entries[..|entries|] == entries;
    if TableSize(entries) > room {
      assert entries[..|entries| - 1][..m] == entries[..m];
      FitIsLongest(entries[..|entries| - 1], room, m);
    }
  }

  /** Section 4.4: the new entry goes in front of as many of the old as then fit, in order; one that
      does not fit by itself leaves nothing. */
  lemma InsertEvicts(d: Decoder, f: Header, m: nat)
    requires m <= |d.entries|
    ensures var cost, after := |f.name| + |f.value| + 32, Insert(d, f).entries;
            if cost > d.max then after == []
            else
              && after != [] && after[0] == f && after[1..] <= d.entries
              && (m <= |after| - 1 <==> cost + TableSize(d.entries[..m]) <= d.max)
  {
    var room := d.max - Size(f);
    if Size(f) <= d.max {
      var kept := Fit(d.entries, room);
      if TableSize(d.entries[..m]) <= room { FitIsLongest(d.entries, room, m); }
      if m <= |kept| {
        assert kept[..m] == d.entries[..m];
        SizeGrows(kept, m);
      }
      assert ([f] + kept)[1..] == kept;
    }
  }

  /** Section 4.2 and 6.3: a limit above the allowed one is refused, and a smaller one evicts no more
      than has to go. */
  lemma SizeUpdateEvicts(env: Env, d: Decoder, size: nat, m: nat)
    requires m <= |d.entries|
    ensures var r := DecodeRep(env, d, SizeUpdate(size));
            if size > d.allowed then r.Bad?
            else
              && r.Silent? && r.d.max == size && r.d.allowed == d.allowed && r.d.entries <= d.entries
              && (m <= |r.d.entries| <==> TableSize(d.entries[..m]) <= size)
  {
    if size <= d.allowed {
      var kept := Fit(d.entries, size);
      if TableSize(d.entries[..m]) <= size { FitIsLongest(d.entries, size, m); }
      if m <= |kept| {
        assert kept[..m] == d.entries[..m];
        SizeGrows(kept, m);
      }
    }
  }

  /** Section 2.3.3: the static table from 1, then the dynamic one, and nothing else. */
  lemma IndexNames(env: Env, d: Decoder, index: nat)
    ensures Entry(env, d, index).Some? <==> 1 <= index <= |env.fixed + d.entries|
    ensures Entry(env, d, index).Some? ==> Entry(env, d, index).value == (env.fixed + d.entries)[index - 1]
  {
  }

  // ---- letters and fields ----

  function Letter(r: Rep): char
    requires !r.SizeUpdate?
  {
    match r
    case Indexed(_) => 'i'
    case Literally(kind, _, _) => match kind case Incremental => '+' case Plain => 'l' case NeverIndexed => 'n'
  }

  /** One letter a representation that carries a field. */
  function Letters(reps: seq<Rep>): seq<char> {
    if reps == [] then []
    else (if reps[0].SizeUpdate? then [] else [Letter(reps[0])]) + Letters(reps[1..])
  }

  function Count(letters: seq<char>, c: char): nat {
    if letters == [] then 0 else (if letters[0] == c then 1 else 0) + Count(letters[1..], c)
  }

  lemma CountHead(x: char, rest: seq<char>, c: char)
    ensures Count([x] + rest, c) == (if x == c then 1 else 0) + Count(rest, c)
  {
    assert ([x] + rest)[1..] == rest;
  }

  /** `r` counts the letters of a block on top of `n`. */
  ghost predicate Counted(n: Counts, letters: seq<char>, r: Counts) {
    && r.kinds == n.kinds + letters
    && r.indexed == n.indexed + Count(letters, 'i')
    && r.incIndex == n.incIndex + Count(letters, '+')
    && r.noIndex == n.noIndex + Count(letters, 'l')
    && r.never == n.never + Count(letters, 'n')
  }

  lemma CountedOne(n: Counts, r: Rep, letters: seq<char>, end: Counts)
    requires Counted(Note(n, r), letters, end)
    ensures Counted(n, (if r.SizeUpdate? then [] else [Letter(r)]) + letters, end)
  {
    if r.SizeUpdate? {
      assert [] + letters == letters;
    } else {
      CountHead(Letter(r), letters, 'i');
      CountHead(Letter(r), letters, '+');
      CountHead(Letter(r), letters, 'l');
      CountHead(Letter(r), letters, 'n');
      hide Count;
      assert n.kinds + ([Letter(r)] + letters) == n.kinds + [Letter(r)] + letters;
    }
  }

  /** The record's letters are the block's, and its four counters count them. */
  lemma {:induction false} RecordCountsLetters(n: Counts, reps: seq<Rep>)
    ensures Counted(n, Letters(reps), NoteAll(n, reps))
    decreases |reps|
  {
    if reps != [] {
      hide Counted;
      RecordCountsLetters(Note(n, reps[0]), reps[1..]);
      CountedOne(n, reps[0], Letters(reps[1..]), NoteAll(n, reps));
    }
  }

  /** The decoded fields and the scanner's letters correspond one to one. */
  lemma {:induction false} FieldsMatchLetters(env: Env, d: Decoder, reps: seq<Rep>)
    ensures var r := DecodeAll(env, d, reps);
            r.Some? ==> |r.value.fields| == |Letters(reps)|
    decreases |reps|
  {
    if reps != [] {
      match DecodeRep(env, d, reps[0])
      case Bad =>
      case Silent(d') => FieldsMatchLetters(env, d', reps[1..]);
      case Emits(_, d') => FieldsMatchLetters(env, d', reps[1..]);
    }
  }

  /** The fields marked as inserted, newest first. */
  function Inserted(fields: seq<Header>, letters: seq<char>): seq<Header>
    requires |fields| == |letters|
  {
    if fields == [] then []
    else Inserted(fields[1..], letters[1..]) + (if letters[0] == '+' then [fields[0]] else [])
  }

  lemma {:induction false} TableSizeSplits(a: seq<Header>, b: seq<Header>)
    ensures TableSize(a + b) == TableSize(a) + TableSize(b)
    decreases |a|
  {
    if a == [] { assert a + b == b; } else {
      assert (a + b)[1..] == a[1..] + b;
      TableSizeSplits(a[1..], b);
    }
  }

  function Added(r: Rep, f: Header): seq<Header>
    requires !r.SizeUpdate?
  {
    if Letter(r) == '+' then [f] else []
  }

  /** What one representation does to the table. */
  lemma RepEffect(env: Env, d: Decoder, r: Rep)
    requires TableSize(d.entries) <= d.max
    ensures DecodeRep(env, d, r).Silent? ==>
              && r.SizeUpdate?
              && DecodeRep(env, d, r).d.entries <= d.entries
              && TableSize(DecodeRep(env, d, r).d.entries) <= DecodeRep(env, d, r).d.max
    ensures DecodeRep(env, d, r).Emits? ==>
              && !r.SizeUpdate?
              && DecodeRep(env, d, r).d.entries <= Added(r, DecodeRep(env, d, r).field) + d.entries
              && TableSize(DecodeRep(env, d, r).d.entries) <= DecodeRep(env, d, r).d.max
  {
    hide Insert;
    var step := DecodeRep(env, d, r);
    if step.Emits? {
      InsertKeepsPrefix(d, step.field);
      assert [] + d.entries == d.entries;
      assert Insert(d, step.field).max == d.max by { InsertKeepsMax(d, step.field); }
    }
  }

  lemma InsertKeepsMax(d: Decoder, f: Header)
    ensures Insert(d, f).max == d.max
  {
  }

  lemma InsertedHead(f: Header, fields: seq<Header>, r: Rep, letters: seq<char>)
    requires !r.SizeUpdate? && |fields| == |letters|
    ensures Inserted([f] + fields, [Letter(r)] + letters) == Inserted(fields, letters) + Added(r, f)
  {
    assert ([f] + fields)[1..] == fields && ([Letter(r)] + letters)[1..] == letters;
  }

  /** The table is a queue: what the block inserted, on top of what was there, is what is there
      now and then what was evicted, in order; and the table is within its limit. */
  lemma {:induction false} TableIsAQueue(env: Env, d: Decoder, reps: seq<Rep>) returns (evicted: seq<Header>)
    requires DecodeAll(env, d, reps).Some? && TableSize(d.entries) <= d.max
    ensures |DecodeAll(env, d, reps).value.fields| == |Letters(reps)|
    ensures var r := DecodeAll(env, d, reps).value;
            Inserted(r.fields, Letters(reps)) + d.entries == r.d.entries + evicted
    ensures TableSize(DecodeAll(env, d, reps).value.d.entries) <= DecodeAll(env, d, reps).value.d.max
    decreases |reps|
  {
    hide DecodeRep, Letter, Added, TableSize;
    FieldsMatchLetters(env, d, reps);
    var r := DecodeAll(env, d, reps).value;
    if reps == [] {
      assert Inserted(r.fields, Letters(reps)) + d.entries == d.entries == d.entries + [];
      return [];
    }
    RepEffect(env, d, reps[0]);
    var letters := Letters(reps[1..]);
    FieldsMatchLetters(env, DecodeRep(env, d, reps[0]).d, reps[1..]);
    match DecodeRep(env, d, reps[0])
    case Silent(d') =>
      assert Letters(reps) == letters;
      var later := TableIsAQueue(env, d', reps[1..]);
      evicted := later + ([] + d.entries)[|d'.entries|..];
      assert [] + d.entries == d.entries;
      QueueStep([], d.entries, d'.entries, Inserted(r.fields, letters), r.d.entries, later);
      assert Inserted(r.fields, letters) + [] == Inserted(r.fields, letters);
    case Emits(f, d') =>
      var rest := DecodeAll(env, d', reps[1..]).value;
      var added := Added(reps[0], f);
      InsertedHead(f, rest.fields, reps[0], letters);
      var later := TableIsAQueue(env, d', reps[1..]);
      evicted := later + (added + d.entries)[|d'.entries|..];
      QueueStep(added, d.entries, d'.entries, Inserted(rest.fields, letters), r.d.entries, later);
  }

  lemma InsertKeepsPrefix(d: Decoder, f: Header)
    requires TableSize(d.entries) <= d.max
    ensures Insert(d, f).entries <= [f] + d.entries
    ensures TableSize(Insert(d, f).entries) <= d.max
  {
    if Size(f) <= d.max {
      var kept := Fit(d.entries, d.max - Size(f));
      assert ([f] + kept)[1..] == kept;
    }
  }

  lemma QueueStep<T>(added: seq<T>, before: seq<T>, middle: seq<T>, inserted: seq<T>, after: seq<T>, later: seq<T>)
    requires middle <= added + before
    requires inserted + middle == after + later
    ensures inserted + added + before == after + (later + (added + before)[|middle|..])
  {
    var gone := (added + before)[|middle|..];
    assert added + before == middle + gone;
    assert inserted + added + before == inserted + (middle + gone) == (inserted + middle) + gone;
  }

  /** What `Inserted` in the record is: the section 4.1 size of every incremental literal. */
  function InsertedBytes(fields: seq<Header>, kinds: seq<char>): nat
    requires |fields| == |kinds|
  {
    if fields == [] then 0
    else (if kinds[0] == '+' then Size(fields[0]) else 0) + InsertedBytes(fields[1..], kinds[1..])
  }

  lemma {:induction false} InsertedBytesAreSizes(fields: seq<Header>, kinds: seq<char>)
    requires |fields| == |kinds|
    ensures InsertedBytes(fields, kinds) == TableSize(Inserted(fields, kinds))
    decreases |fields|
  {
    if fields != [] {
      InsertedBytesAreSizes(fields[1..], kinds[1..]);
      TableSizeSplits(Inserted(fields[1..], kinds[1..]), if kinds[0] == '+' then [fields[0]] else []);
    }
  }

  /** Conservation: the octets a block inserted are the table's growth and what it evicted. */
  lemma InsertedBytesBalance(env: Env, d: Decoder, reps: seq<Rep>) returns (evicted: seq<Header>)
    requires DecodeAll(env, d, reps).Some? && TableSize(d.entries) <= d.max
    ensures |DecodeAll(env, d, reps).value.fields| == |Letters(reps)|
    ensures var r := DecodeAll(env, d, reps).value;
            InsertedBytes(r.fields, Letters(reps)) + TableSize(d.entries)
            == TableSize(r.d.entries) + TableSize(evicted)
  {
    var r := DecodeAll(env, d, reps).value;
    evicted := TableIsAQueue(env, d, reps);
    InsertedBytesAreSizes(r.fields, Letters(reps));
    TableSizeSplits(Inserted(r.fields, Letters(reps)), d.entries);
    TableSizeSplits(r.d.entries, evicted);
  }

  // ---- the connection's own record ----

  datatype BlockRecord = BlockRecord(
    stream: nat, trailer: bool, bytes: nat, counts: Counts, names: seq<seq<byte>>, insertedBytes: nat)

  /** How many fields have a letter. */
  function Lettered(fields: seq<Header>, kinds: seq<char>): nat {
    if |fields| <= |kinds| then |fields| else |kinds|
  }

  /** The names in order, and the inserted octets as the loop over the fields adds them up: a
      field past the last letter adds none. */
  method TallyFields(fields: seq<Header>, kinds: seq<char>) returns (names: seq<seq<byte>>, inserted: nat)
    ensures |names| == |fields| && forall k :: 0 <= k < |fields| ==> names[k] == fields[k].name
    ensures var m := Lettered(fields, kinds); inserted == InsertedBytes(fields[..m], kinds[..m])
  {
    names, inserted := [], 0;
    ghost var m := Lettered(fields, kinds);
    assert fields[0..m] == fields[..m] && kinds[0..m] == kinds[..m];
    for k := 0 to |fields|
      invariant |names| == k && forall j :: 0 <= j < k ==> names[j] == fields[j].name
      invariant inserted + (if k < m then InsertedBytes(fields[k..m], kinds[k..m]) else 0)
             == InsertedBytes(fields[..m], kinds[..m])
    {
      names := names + [fields[k].name];
      if k < |kinds| && kinds[k] == '+' {
        inserted := inserted + Size(fields[k]);
      }
      assert k < m ==> fields[k..m][1..] == fields[k + 1..m] && kinds[k..m][1..] == kinds[k + 1..m];
    }
  }

  /** The fragments of a block in order: one HEADERS and any number of CONTINUATION frames. */
  function Joined(fragments: seq<seq<byte>>): seq<byte> {
    if fragments == [] then [] else fragments[0] + Joined(fragments[1..])
  }

  /** What `decode` and `scan` are given, and the length in the record, while a block arrives. */
  class Recorder {
    var raw: seq<byte>
    var stream: nat
    var trailer: bool
    var bytes: nat
    var recorded: seq<(nat, bool, nat, seq<byte>)>

    constructor ()
      ensures recorded == [] && raw == []
    {
      raw, stream, trailer, bytes, recorded := [], 0, false, 0, [];
    }

    method OnHeaders(id: nat, isTrailer: bool, fragment: seq<byte>, endHeaders: bool)
      modifies this
      ensures endHeaders ==> recorded == old(recorded) + [(id, isTrailer, |fragment|, fragment)] && raw == []
      ensures !endHeaders ==>
                && recorded == old(recorded) && raw == fragment && bytes == |fragment|
      ensures stream == id && trailer == isTrailer
    {
      stream, trailer := id, isTrailer;
      raw := raw[..0] + fragment;
      assert raw == fragment;
      bytes := |fragment|;
      if endHeaders { FinishBlock(); }
    }

    method OnContinuation(fragment: seq<byte>, endHeaders: bool)
      modifies this
      ensures stream == old(stream) && trailer == old(trailer)
      ensures endHeaders ==>
                recorded == old(recorded)
                            + [(old(stream), old(trailer), old(bytes) + |fragment|, old(raw) + fragment)]
      ensures !endHeaders ==>
                && recorded == old(recorded) && raw == old(raw) + fragment
                && bytes == old(bytes) + |fragment|
    {
      raw := raw + fragment;
      bytes := bytes + |fragment|;
      if endHeaders { FinishBlock(); }
    }

    method FinishBlock()
      modifies this
      ensures recorded == old(recorded) + [(old(stream), old(trailer), old(bytes), old(raw))] && raw == []
      ensures stream == old(stream) && trailer == old(trailer)
    {
      recorded := recorded + [(stream, trailer, bytes, raw)];
      raw := [];
    }

    /** However a block is cut into fragments, what is recorded is the whole block. */
    method Receive(id: nat, isTrailer: bool, fragments: seq<seq<byte>>)
      requires fragments != []
      modifies this
      ensures recorded == old(recorded) + [(id, isTrailer, |Joined(fragments)|, Joined(fragments))]
    {
      ghost var before := recorded;
      OnHeaders(id, isTrailer, fragments[0], |fragments| == 1);
      assert fragments[..1] == [fragments[0]] == [] + [fragments[0]];
      assert fragments[..|fragments|] == fragments;
      JoinedAppends([], fragments[0]);
      assert Joined(fragments[..1]) == fragments[0];
      assert |fragments| == 1 ==> fragments == fragments[..1];
      for i := 1 to |fragments|
        invariant stream == id && trailer == isTrailer
        invariant i < |fragments| ==>
                    recorded == before && raw == Joined(fragments[..i]) && bytes == |raw|
        invariant i == |fragments| ==>
                    recorded == before + [(id, isTrailer, |Joined(fragments)|, Joined(fragments))]
      {
        JoinedAppends(fragments[..i], fragments[i]);
        assert fragments[..i] + [fragments[i]] == fragments[..i + 1];
        assert fragments[..|fragments|] == fragments;
        OnContinuation(fragments[i], i == |fragments| - 1);
      }
    }
  }

  lemma JoinedAppends(fragments: seq<seq<byte>>, last: seq<byte>)
    ensures Joined(fragments + [last]) == Joined(fragments) + last
  {
    if fragments == [] {
      assert [last][1..] == [];
    } else {
      assert (fragments + [last])[1..] == fragments[1..] + [last];
      JoinedAppends(fragments[1..], last);
    }
  }

  /** From the client's choices to the record: whatever fragments carried the block, the scanner's
      record of it counts exactly the representations sent. */
  lemma FragmentsScanAsSent(reps: seq<Rep>, fragments: seq<seq<byte>>)
    requires (forall r <- reps :: Sendable(r)) && Joined(fragments) == EncodeBlock(reps)
    requires |Joined(fragments)| < TWO_63
    ensures var s := Run(Joined(fragments), Running(0, ZERO), |reps| + 1);
            && s.Finished?
            && s.counts.kinds == Letters(reps)
            && s.counts.indexed == Count(Letters(reps), 'i')
            && s.counts.incIndex == Count(Letters(reps), '+')
            && s.counts.noIndex == Count(Letters(reps), 'l')
            && s.counts.never == Count(Letters(reps), 'n')
  {
    hide Run, EncodeBlock;
    ScanOfEncoding(reps);
    RecordCountsLetters(ZERO, reps);
  }

  /** What `DecodeFull` hands back: the fields of a block it can decode, and none of one it refuses. */
  function FullFields(env: Env, d: Decoder, reps: seq<Rep>): seq<Header> {
    match DecodeFull(env, d, reps)
    case Some(r) => r.fields
    case None => []
  }

  /** `raw` is what a client sent for these representations. */
  ghost predicate Sent(reps: seq<Rep>, raw: seq<byte>) {
    raw == EncodeBlock(reps) && |raw| < TWO_63 && forall r <- reps :: Sendable(r)
  }

  /** One block's record from its frames, and none when the scan of it panics: the same however the
      block was cut, its length the whole block's, its counts the scan's, a name for every field the
      decoder made of it, and the sizes of those marked as inserted. Of a block that was sent as
      representations the counts are what the client chose, there is a letter for every name, and
      the octets are the section 4.1 sizes of the incremental literals; one that does not decode is
      recorded with its counts all the same, and without names. */
  method RecordBlock(id: nat, isTrailer: bool, fragments: seq<seq<byte>>, fields: seq<Header>,
                     ghost reps: seq<Rep>, ghost env: Env, ghost d: Decoder) returns (r: Option<BlockRecord>)
    requires fragments != [] && !ScanEnds.ComesBack(Joined(fragments))
    ensures r.None? <==> ScanEnds.Strays(Joined(fragments))
    ensures r.Some? ==>
              && r.value.stream == id && r.value.trailer == isTrailer && r.value.bytes == |Joined(fragments)|
              && Run(Joined(fragments), Running(0, ZERO), |Joined(fragments)| + 1) == Finished(r.value.counts)
              && |r.value.names| == |fields| && (forall k | 0 <= k < |fields| :: r.value.names[k] == fields[k].name)
              && var m := Lettered(fields, r.value.counts.kinds);
                 r.value.insertedBytes == InsertedBytes(fields[..m], r.value.counts.kinds[..m])
    ensures Sent(reps, Joined(fragments)) ==>
              r.Some? && r.value.counts == NoteAll(ZERO, reps) && r.value.counts.kinds == Letters(reps)
    ensures Sent(reps, Joined(fragments)) && fields == FullFields(env, d, reps) ==>
              if DecodeFull(env, d, reps).None? then r.value.names == [] && r.value.insertedBytes == 0
              else |fields| == |Letters(reps)| && r.value.insertedBytes == TableSize(Inserted(fields, Letters(reps)))
  {
    hide EncodeBlock, Joined, Run, DecodeAll, NoteAll, Sent, ScanEnds.ComesBack, ScanEnds.Strays;
    var recorder := new Recorder();
    recorder.Receive(id, isTrailer, fragments);
    var (stream, trailer, bytes, raw) := recorder.recorded[0];
    var block := new HpackScanner.Block();
    ScanEnds.PanicsExactly(raw, ZERO);
    if Sent(reps, raw) { SentScans(reps, raw); }
    var panicked := HpackScanner.Scan(raw, block);
    if panicked { return None; }
    var names, inserted := TallyFields(fields, block.kinds);
    if Sent(reps, raw) && fields == FullFields(env, d, reps) { SentFields(reps, env, d); }
    return Some(BlockRecord(stream, trailer, bytes, block.Snapshot(), names, inserted));
  }

  lemma SentScans(reps: seq<Rep>, raw: seq<byte>)
    requires Sent(reps, raw)
    ensures Run(raw, Running(0, ZERO), |raw| + 1) == Finished(NoteAll(ZERO, reps))
    ensures NoteAll(ZERO, reps).kinds == Letters(reps)
  {
    hide EncodeBlock, Run;
    ScanOfEncoding(reps);
    ScanEnds.EndsByThen(raw, ZERO, |reps| + 1);
    RecordCountsLetters(ZERO, reps);
  }

  lemma SentFields(reps: seq<Rep>, env: Env, d: Decoder)
    ensures DecodeFull(env, d, reps).Some? ==> |FullFields(env, d, reps)| == |Letters(reps)|
    ensures var fields, letters := FullFields(env, d, reps), Letters(reps); var m := Lettered(fields, letters);
            InsertedBytes(fields[..m], letters[..m]) ==
              if DecodeFull(env, d, reps).None? then 0 else TableSize(Inserted(fields, letters))
  {
    FieldsMatchLetters(env, d, reps);
    var fields, letters := FullFields(env, d, reps), Letters(reps);
    if DecodeFull(env, d, reps).Some? {
      assert fields[..|fields|] == fields && letters[..|letters|] == letters;
      InsertedBytesAreSizes(fields, letters);
    }
  }
}
