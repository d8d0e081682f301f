/** The five write shapes of the SQL comparison as changes to tables, and what every arm must answer
    for them (bench/compare-sql/go/ops.go:154-158, 196-198, 281-304, 329-532;
    bench/compare-sql/rust/src/ops.rs:87-104, 327-361, 399-711). */
module Writes {

  datatype Row = Row(email: string, age: int, created: int)

  type Table = map<nat, Row>

  datatype State = State(people: Table, writes: Table, updates: Table, deletes: Table)

  datatype Shape = Insert | Batch | Update | Delete | Tx

  datatype Arm = Pgx | Gorm | TokioPg | Diesel | Sqlx

  const EPOCH_BASE_S := 1_767_225_600
  const BATCH_ROWS := 100

  function Rounds(shape: Shape): nat {
    if shape.Batch? then 10 else 50
  }

  function Decimal(n: nat): string {
    if n < 10 then [(n + 48) as char] else Decimal(n / 10) + [(n % 10 + 48) as char]
  }

  // ---- the rows written ----

  function WrittenAge(id: nat): int { 20 + id % 50 }

  function WrittenEmail(id: nat): string { "w" + Decimal(id) + "@example.dev" }

  function WrittenTime(id: nat): int { EPOCH_BASE_S + id - 1 }

  /** The row the seeding statements make. */
  function Named(prefix: string, id: nat): Row {
    Row(prefix + Decimal(id) + "@example.dev", WrittenAge(id), EPOCH_BASE_S + id - 1)
  }

  /** The row a key is stored with by an arm. */
  function Written(id: nat): Row {
    Row(WrittenEmail(id), WrittenAge(id), WrittenTime(id))
  }

  function Tally(id: nat, row: Row): int {
    id + row.age + |row.email| + row.created
  }

  function Seeded(prefix: string, n: nat): Table {
    map id | 1 <= id <= n :: Named(prefix, id)
  }

  // ---- one statement ----

  /** Rows `lo` up to `hi` as written. */
  function Rows(lo: nat, hi: nat): Table {
    map id | lo <= id < hi :: Written(id)
  }

  /** Some key of `lo` up to `hi` is there already. */
  ghost predicate Clashes(t: Table, lo: nat, hi: nat) {
    exists id :: lo <= id < hi && id in t
  }

  /** The tallies of the rows of `t` from `lo` up to `hi`. */
  function SumRows(t: Table, lo: nat, hi: nat): int
    decreases hi
  {
    if hi <= lo then 0 else SumRows(t, lo, hi - 1) + Found(t, hi - 1)
  }

  /** What a query for one key drains: the row's tally, or nothing when it is not there. */
  function Found(t: Table, id: nat): int {
    if id in t then Tally(id, t[id]) else 0
  }

  /** The table after one row's age is set. */
  function Aged(t: Table, id: nat): Table {
    if id in t then t[id := t[id].(age := WrittenAge(id))] else t
  }

  // ---- one round, one block, one run ----

  datatype Outcome = Failed(state: State) | Done(sum: int, state: State)

  function Key(i: nat): nat { i % 1000 + 1 }

  /** One round of a block. A statement that meets a key it may not insert fails and changes
      nothing; GORM's `Take` fails where the others read no row. */
  ghost function Round(arm: Arm, shape: Shape, i: nat, s: State): Outcome {
    match shape
    case Insert =>
      InsertRows(s, i + 1, i + 2)
    case Batch =>
      InsertRows(s, i * BATCH_ROWS + 1, i * BATCH_ROWS + 1 + BATCH_ROWS)
    case Update =>
      UpdateRow(s, Key(i), 0)
    case Delete =>
      Done(Found(s.deletes, i + 1), s.(deletes := s.deletes - {i + 1}))
    case Tx =>
      if arm.Gorm? && Key(i) !in s.people then Failed(s) else UpdateRow(s, Key(i), Found(s.people, Key(i)))
  }

  ghost function InsertRows(s: State, lo: nat, hi: nat): Outcome {
    if Clashes(s.writes, lo, hi) then Failed(s)
    else Done(SumRows(Rows(lo, hi), lo, hi), s.(writes := s.writes + Rows(lo, hi)))
  }

  function UpdateRow(s: State, key: nat, before: int): Outcome {
    Done(before + Found(Aged(s.updates, key), key), s.(updates := Aged(s.updates, key)))
  }

  /** `n` rounds; the first that fails ends the block. */
  ghost function Block(arm: Arm, shape: Shape, n: nat, s: State): Outcome {
    if n == 0 then Done(0, s)
    else
      match Block(arm, shape, n - 1, s)
      case Failed(t) => Failed(t)
      case Done(sum, t) => Plus(sum, Round(arm, shape, n - 1, t))
  }

  function Plus(sum: int, o: Outcome): Outcome {
    match o case Failed(t) => Failed(t) case Done(more, t) => Done(sum + more, t)
  }

  /** `prepareWrites`. */
  function Prepare(shape: Shape, s: State): State {
    match shape
    case Insert | Batch => s.(writes := map[])
    case Delete => s.(deletes := Seeded("w", Rounds(shape)))
    case Update | Tx => s
  }

  // ---- what a block does ----

  lemma {:induction false} SumRowsSame(t: Table, u: Table, lo: nat, hi: nat)
    requires forall id | lo <= id < hi :: (id in t <==> id in u) && (id in t ==> t[id] == u[id])
    ensures SumRows(t, lo, hi) == SumRows(u, lo, hi)
    decreases hi
  {
    if lo < hi { SumRowsSame(t, u, lo, hi - 1); }
  }

  lemma {:induction false} SumRowsJoins(t: Table, lo: nat, mid: nat, hi: nat)
    requires lo <= mid <= hi
    ensures SumRows(t, lo, hi) == SumRows(t, lo, mid) + SumRows(t, mid, hi)
    decreases hi
  {
    if mid < hi { SumRowsJoins(t, lo, mid, hi - 1); }
  }

  function Width(shape: Shape): nat {
    if shape.Batch? then BATCH_ROWS else 1
  }

  /** Inserting `lo` to `mid` and then `mid` to `hi` is inserting `lo` to `hi`. */
  lemma InsertsJoin(s: State, lo: nat, mid: nat, hi: nat)
    requires lo <= mid <= hi
    ensures Clashes(s.writes, lo, hi)
            <==> Clashes(s.writes, lo, mid) || Clashes(s.writes + Rows(lo, mid), mid, hi)
    ensures s.writes + Rows(lo, mid) + Rows(mid, hi) == s.writes + Rows(lo, hi)
    ensures SumRows(Rows(lo, hi), lo, hi) == SumRows(Rows(lo, mid), lo, mid) + SumRows(Rows(mid, hi), mid, hi)
  {
    hide SumRows, Written;
    forall id | mid <= id < hi ensures id in s.writes + Rows(lo, mid) <==> id in s.writes {}
    SumRowsJoins(Rows(lo, hi), lo, mid, hi);
    SumRowsSame(Rows(lo, hi), Rows(lo, mid), lo, mid);
    SumRowsSame(Rows(lo, hi), Rows(mid, hi), mid, hi);
  }

  lemma NothingInserted(t: Table)
    ensures !Clashes(t, 1, 1) && t + Rows(1, 1) == t && SumRows(Rows(1, 1), 1, 1) == 0
  {
  }

  /** Inserting, a row or a batch at a time, works exactly when none of the keys is there, and then
      every row is stored and tallied once. */
  lemma {:induction false} InsertBlock(arm: Arm, shape: Shape, n: nat, s: State)
    requires shape.Insert? || shape.Batch?
    ensures Block(arm, shape, n, s).Done? <==> !Clashes(s.writes, 1, n * Width(shape) + 1)
    ensures Block(arm, shape, n, s).Done? ==>
              Block(arm, shape, n, s) == Done(SumRows(Rows(1, n * Width(shape) + 1), 1, n * Width(shape) + 1),
                                              s.(writes := s.writes + Rows(1, n * Width(shape) + 1)))
  {
    hide SumRows, Rows, Clashes;
    if n == 0 {
      NothingInserted(s.writes);
    } else {
      InsertBlock(arm, shape, n - 1, s);
      InsertsJoin(s, 1, (n - 1) * Width(shape) + 1, n * Width(shape) + 1);
    }
  }

  /** Deleting never fails, takes keys 1 to `n` out and tallies those that were there. */
  lemma {:induction false} DeleteBlock(arm: Arm, n: nat, s: State)
    ensures Block(arm, Delete, n, s)
            == Done(SumRows(s.deletes, 1, n + 1), s.(deletes := s.deletes - Rows(1, n + 1).Keys))
  {
    if n == 0 {
      assert s.deletes - Rows(1, 1).Keys == s.deletes;
    } else {
      DeleteBlock(arm, n - 1, s);
      var gone := s.deletes - Rows(1, n).Keys;
      assert gone - {n} == s.deletes - Rows(1, n + 1).Keys;
      SumRowsSame(gone, s.deletes, n, n);
    }
  }

  /** The update target after `n` rounds. */
  function AgedAll(t: Table, n: nat): Table {
    if n == 0 then t else Aged(AgedAll(t, n - 1), Key(n - 1))
  }

  /** What `n` updates return: each row with its new age, everything else as it was. */
  function SumAged(t: Table, n: nat): int {
    if n == 0 then 0
    else SumAged(t, n - 1) + Found(Aged(t, Key(n - 1)), Key(n - 1))
  }

  function SumKeys(t: Table, n: nat): int {
    if n == 0 then 0 else SumKeys(t, n - 1) + Found(t, Key(n - 1))
  }

  /** Nothing but ages differs. */
  ghost predicate SameButAges(t: Table, u: Table) {
    t.Keys == u.Keys && forall id <- t :: t[id].email == u[id].email && t[id].created == u[id].created
  }

  lemma {:induction false} AgingKeeps(t: Table, n: nat)
    ensures SameButAges(t, AgedAll(t, n))
    ensures forall id <- t :: AgedAll(t, n)[id].age == t[id].age || AgedAll(t, n)[id].age == WrittenAge(id)
    ensures forall i: nat | i < n && Key(i) in t :: AgedAll(t, n)[Key(i)].age == WrittenAge(Key(i))
  {
    if n > 0 { AgingKeeps(t, n - 1); }
  }

  lemma {:induction false} SumAgedSame(t: Table, u: Table, n: nat)
    requires SameButAges(t, u)
    ensures SumAged(t, n) == SumAged(u, n)
  {
    if n > 0 { SumAgedSame(t, u, n - 1); }
  }

  /** The keys the first `n` rounds ask for are all there. */
  ghost predicate Has(t: Table, n: nat) {
    forall i: nat | i < n :: Key(i) in t
  }

  /** Updating never fails, and what it returns does not depend on the ages it finds. */
  lemma {:induction false} UpdateBlock(arm: Arm, n: nat, s: State)
    ensures Block(arm, Update, n, s) == Done(SumAged(s.updates, n), s.(updates := AgedAll(s.updates, n)))
  {
    if n > 0 {
      UpdateBlock(arm, n - 1, s);
      AgingKeeps(s.updates, n - 1);
    }
  }

  /** A transaction block fails only under GORM, and exactly when a key it takes is missing. */
  lemma {:induction false} TxBlock(arm: Arm, n: nat, s: State)
    ensures Block(arm, Tx, n, s).Done? <==> !arm.Gorm? || Has(s.people, n)
    ensures Block(arm, Tx, n, s).Done? ==>
              Block(arm, Tx, n, s)
              == Done(SumKeys(s.people, n) + SumAged(s.updates, n), s.(updates := AgedAll(s.updates, n)))
  {
    if n > 0 {
      TxBlock(arm, n - 1, s);
      AgingKeeps(s.updates, n - 1);
      assert Has(s.people, n) <==> Has(s.people, n - 1) && Key(n - 1) in s.people;
    }
  }

  /** Any two arms do the same to any tables and answer the same, unless one of them is GORM at a
      transaction over a key that is not there, which is when they differ. */
  lemma ArmsAgree(a: Arm, b: Arm, shape: Shape, n: nat, s: State)
    ensures Block(a, shape, n, s) == Block(b, shape, n, s)
            <==> !shape.Tx? || a.Gorm? == b.Gorm? || Has(s.people, n)
  {
    match shape
    case Insert => RoundsAgree(a, b, shape, n, s);
    case Batch => RoundsAgree(a, b, shape, n, s);
    case Update => RoundsAgree(a, b, shape, n, s);
    case Delete => RoundsAgree(a, b, shape, n, s);
    case Tx =>
      if a.Gorm? == b.Gorm? { RoundsAgree(a, b, shape, n, s); }
      TxBlock(a, n, s);
      TxBlock(b, n, s);
  }

  lemma {:induction false} RoundsAgree(a: Arm, b: Arm, shape: Shape, n: nat, s: State)
    requires !shape.Tx? || a.Gorm? == b.Gorm?
    ensures Block(a, shape, n, s) == Block(b, shape, n, s)
  {
    if n > 0 { RoundsAgree(a, b, shape, n - 1, s); }
  }

  // ---- the interleaving ----

  /** One arm's turn at a shape: the tables put back, then the block. */
  datatype Turn = Turn(arm: Arm, shape: Shape)

  ghost function Take(turn: Turn, s: State): Outcome {
    Block(turn.arm, turn.shape, Rounds(turn.shape), Prepare(turn.shape, s))
  }

  /** The checksum every arm reports for a shape, from the read fixture and the update target. */
  function Checksum(shape: Shape, people: Table, updates: Table): int {
    match shape
    case Insert => SumRows(Rows(1, 51), 1, 51)
    case Batch => SumRows(Rows(1, 1001), 1, 1001)
    case Update => SumAged(updates, 50)
    case Delete => SumRows(Rows(1, 51), 1, 51)
    case Tx => SumKeys(people, 50) + SumAged(updates, 50)
  }

  /** One turn from any contents of the tables it prepares: no duplicate key, the shape's checksum,
      the deletes all gone and no table but its own touched. */
  lemma TurnWorks(turn: Turn, s: State)
    requires Has(s.people, 50)
    ensures Take(turn, s).Done? && Take(turn, s).sum == Checksum(turn.shape, s.people, s.updates)
    ensures var t := Take(turn, s).state;
            && t.people == s.people && SameButAges(s.updates, t.updates)
            && (turn.shape.Insert? ==> t.writes == Rows(1, 51))
            && (turn.shape.Batch? ==> t.writes == Rows(1, 1001))
            && (!turn.shape.Insert? && !turn.shape.Batch? ==> t.writes == s.writes)
            && t.deletes == (if turn.shape.Delete? then map[] else s.deletes)
            && (!turn.shape.Update? && !turn.shape.Tx? ==> t.updates == s.updates)
  {
    hide Block, SumRows, SumAged, SumKeys, AgedAll, Rows, Seeded, Has, Clashes;
    var p := Prepare(turn.shape, s);
    match turn.shape
    case Insert =>
      InsertBlock(turn.arm, Insert, 50, p);
      Emptied(51);
    case Batch =>
      InsertBlock(turn.arm, Batch, 10, p);
      Emptied(1001);
    case Update =>
      UpdateBlock(turn.arm, 50, p);
      AgingKeeps(s.updates, 50);
    case Delete =>
      SeedsAreWritten(50);
      DeleteBlock(turn.arm, 50, p);
      assert Rows(1, 51) - Rows(1, 51).Keys == map[];
    case Tx =>
      TxBlock(turn.arm, 50, p);
      AgingKeeps(s.updates, 50);
  }

  /** The statement that seeds the deletes makes the rows an arm would write. */
  lemma SeedsAreWritten(n: nat)
    ensures Seeded("w", n) == Rows(1, n + 1)
  {
    hide Decimal;
  }

  lemma Emptied(hi: nat)
    ensures !Clashes(map[], 1, hi) && map[] + Rows(1, hi) == Rows(1, hi)
  {
  }

  /** The state after some turns, each of which works and reports its shape's checksum. */
  ghost predicate AllWork(turns: seq<Turn>, s: State, people: Table, updates: Table)
    decreases |turns|
  {
    turns == []
    || (var o := Take(turns[0], s);
        o.Done? && o.sum == Checksum(turns[0].shape, people, updates) && AllWork(turns[1..], o.state, people, updates))
  }

  /** Any number of blocks, shapes in any order and arms in any order: none fails and every one
      reports the same checksum for its shape, set by the fixture alone. */
  lemma {:induction false} EveryBlockWorks(turns: seq<Turn>, s: State, updates: Table)
    requires Has(s.people, 50) && SameButAges(updates, s.updates)
    ensures AllWork(turns, s, s.people, updates)
    decreases |turns|
  {
    hide Take, Has;
    if turns != [] {
      TurnWorks(turns[0], s);
      SumAgedSame(updates, s.updates, 50);
      EveryBlockWorks(turns[1..], Take(turns[0], s).state, updates);
    }
  }

  lemma OneWide(n: nat)
    ensures n * Width(Insert) == n
  {
  }

  /** Leave out the truncate, and the second insert block of two is a duplicate key. */
  lemma SecondInsertClashes(a: Arm, b: Arm, n: nat, s: State)
    requires n > 0 && Block(a, Insert, n, s).Done?
    ensures Block(b, Insert, n, Block(a, Insert, n, s).state).Failed?
  {
    OneWide(n);
    hide Width;
    InsertBlock(a, Insert, n, s);
    var t := s.(writes := s.writes + Rows(1, n + 1));
    assert 1 in t.writes;
    assert Clashes(t.writes, 1, n + 1);
    hide Block, Rows, SumRows, Clashes;
    InsertBlock(b, Insert, n, t);
  }

  // ---- the fixture ----

  /** With the tables as they are seeded the checksums are one number: an update returns what an
      insert of the key would, and a transaction twice that. */
  lemma FixtureChecksums(people: Table, updates: Table)
    requires people == Seeded("p", 1000) && updates == Seeded("u", 1000)
    ensures Has(people, 50)
    ensures Checksum(Delete, people, updates) == Checksum(Insert, people, updates)
    ensures Checksum(Update, people, updates) == Checksum(Insert, people, updates)
    ensures Checksum(Tx, people, updates) == 2 * Checksum(Insert, people, updates)
  {
    hide SumRows, SumAged, SumKeys, Rows, Seeded;
    SeededSums(people, updates, 50);
    SeededHas(people, 50);
  }

  lemma SeededHas(people: Table, n: nat)
    requires people == Seeded("p", 1000)
    ensures Has(people, n)
  {
  }

  /** Three prefixes of one letter make rows of one tally. */
  lemma SeededRow(prefix: string, id: nat)
    requires |prefix| == 1
    ensures Tally(id, Named(prefix, id)) == Tally(id, Written(id))
    ensures Named(prefix, id).age == WrittenAge(id)
  {
  }

  lemma {:induction false} SeededSums(people: Table, updates: Table, n: nat)
    requires people == Seeded("p", 1000) && updates == Seeded("u", 1000) && n <= 1000
    ensures SumKeys(people, n) == SumRows(Rows(1, n + 1), 1, n + 1)
    ensures SumAged(updates, n) == SumRows(Rows(1, n + 1), 1, n + 1)
  {
    hide Tally, Named, WrittenAge;
    if n > 0 {
      SeededSums(people, updates, n - 1);
      SumRowsSame(Rows(1, n + 1), Rows(1, n), 1, n);
      KeyIs(n);
      SeededRow("p", n);
      SeededRow("u", n);
      var row := updates[n];
      assert row.(age := WrittenAge(n)) == row;
    }
  }

  lemma KeyIs(n: nat)
    requires 1 <= n <= 1000
    ensures Key(n - 1) == n
  {
  }

  // ---- the numbers ----

  function Digits(n: nat): nat {
    if n < 10 then 1 else 1 + Digits(n / 10)
  }

  lemma {:induction false} DecimalLength(n: nat)
    ensures |Decimal(n)| == Digits(n)
  {
    if n >= 10 { DecimalLength(n / 10); }
  }

  /** Reading digits back, most significant first. */
  function Number(s: string): nat
    requires forall i | 0 <= i < |s| :: '0' <= s[i] <= '9'
  {
    if s == [] then 0 else 10 * Number(s[..|s| - 1]) + (s[|s| - 1] as nat - '0' as nat)
  }

  lemma {:induction false} DecimalReads(n: nat)
    ensures (forall i | 0 <= i < |Decimal(n)| :: '0' <= Decimal(n)[i] <= '9') && Number(Decimal(n)) == n
  {
    var s := Decimal(n);
    if n >= 10 {
      DecimalReads(n / 10);
      assert s[..|s| - 1] == Decimal(n / 10);
    } else {
      assert s[..0] == [];
    }
  }

  /** One row as written: its key, an age from 20 to 69, thirteen octets and the digits of the key,
      and a second for each key from the start of 2026. */
  lemma WrittenTally(id: nat)
    requires id > 0
    ensures Tally(id, Written(id)) == id + (20 + id % 50) + (13 + Digits(id)) + (1767225600 + id - 1)
  {
    DecimalLength(id);
    assert |"w"| == 1 && |"@example.dev"| == 12;
  }

  /** The ages of keys 1 to `n`, less twenty each. */
  function AgesUpTo(n: nat): nat {
    n / 50 * 1225 + n % 50 * (n % 50 + 1) / 2
  }

  /** The digits of keys 1 to `n`, below ten thousand. */
  function DigitsUpTo(n: nat): nat {
    if n < 10 then n
    else if n < 100 then 9 + 2 * (n - 9)
    else if n < 1000 then 189 + 3 * (n - 99)
    else 2889 + 4 * (n - 999)
  }

  lemma AgesNext(n: nat)
    requires n > 0
    ensures AgesUpTo(n) == AgesUpTo(n - 1) + n % 50
  {
    var q, r := n / 50, n % 50;
    if r == 0 {
      assert (n - 1) / 50 == q - 1 && (n - 1) % 50 == 49;
    } else {
      assert (n - 1) / 50 == q && (n - 1) % 50 == r - 1;
      Halves(r);
    }
  }

  lemma Halves(r: nat)
    requires r > 0
    ensures r * (r + 1) / 2 == (r - 1) * r / 2 + r
  {
    assert r * (r + 1) == (r - 1) * r + 2 * r;
  }

  lemma DigitsNext(n: nat)
    requires 0 < n < 10000
    ensures DigitsUpTo(n) == DigitsUpTo(n - 1) + Digits(n)
  {
    assert n >= 10 ==> Digits(n) == 1 + Digits(n / 10);
    assert n >= 100 ==> Digits(n / 10) == 1 + Digits(n / 10 / 10);
    assert n >= 1000 ==> Digits(n / 10 / 10) == 1 + Digits(n / 10 / 10 / 10);
  }

  lemma NextRow(n: nat)
    requires n > 0
    ensures SumRows(Rows(1, n + 1), 1, n + 1) == SumRows(Rows(1, n), 1, n) + Tally(n, Written(n))
  {
    hide Tally, Written;
    SumRowsSame(Rows(1, n + 1), Rows(1, n), 1, n);
  }

  lemma NextSquare(n: nat)
    requires n > 0
    ensures n * (n + 1) == (n - 1) * n + 2 * n
  {
  }

  lemma {:induction false} RowsSum(n: nat)
    requires n < 10000
    ensures SumRows(Rows(1, n + 1), 1, n + 1) == 1767225632 * n + n * (n + 1) + AgesUpTo(n) + DigitsUpTo(n)
  {
    if n > 0 {
      RowsSum(n - 1);
      hide AgesUpTo, DigitsUpTo, Digits, Tally, Written, SumRows, Rows;
      NextRow(n);
      WrittenTally(n);
      AgesNext(n);
      DigitsNext(n);
      NextSquare(n);
    }
  }

  /** The checksums themselves: fifty rows, and a thousand. */
  lemma ChecksumNumbers(people: Table, updates: Table)
    ensures Checksum(Insert, people, updates) == 88361285466
    ensures Checksum(Batch, people, updates) == 1767226660393
    ensures Checksum(Delete, people, updates) == 88361285466
  {
    hide SumRows;
    RowsSum(50);
    RowsSum(1000);
  }
}
