/** The five arms of the SQL comparison as they run: statements and transactions against tables, each
    arm's own loop of rounds, and the blocks interleaved (bench/compare-sql/go/ops.go:281-304, 329-532;
    bench/compare-sql/rust/src/ops.rs:327-361, 399-711). */
module WritesArms {
  import opened Writes

  /** A row as a statement returns it. */
  datatype Stored = Stored(id: nat, row: Row)

  /** A statement that would break a constraint is refused. */
  datatype Returned = Refused | Returned(rows: seq<Stored>)

  function TableOf(rows: seq<Stored>): Table {
    if rows == [] then map[] else TableOf(rows[..|rows| - 1])[rows[|rows| - 1].id := rows[|rows| - 1].row]
  }

  ghost predicate Distinct(rows: seq<Stored>) {
    forall i, j | 0 <= i < j < |rows| :: rows[i].id != rows[j].id
  }

  ghost predicate Meets(t: Table, rows: seq<Stored>) {
    exists i | 0 <= i < |rows| :: rows[i].id in t
  }

  lemma {:induction false} InTableOf(rows: seq<Stored>, id: nat)
    ensures id in TableOf(rows) <==> exists i | 0 <= i < |rows| :: rows[i].id == id
  {
    if rows != [] {
      var most := rows[..|rows| - 1];
      InTableOf(most, id);
      if i :| 0 <= i < |most| && most[i].id == id { assert rows[i].id == id; }
      assert rows[|rows| - 1].id == id ==> id in TableOf(rows);
    }
  }

  function SumStored(rows: seq<Stored>): int {
    if rows == [] then 0
    else SumStored(rows[..|rows| - 1]) + Tally(rows[|rows| - 1].id, rows[|rows| - 1].row)
  }

  /** `unnest` of four columns side by side. */
  function Zip(ids: seq<nat>, emails: seq<string>, ages: seq<int>, stamps: seq<int>): (rows: seq<Stored>)
    requires |ids| == |emails| == |ages| == |stamps|
    ensures |rows| == |ids|
  {
    seq(|ids|, i requires 0 <= i < |ids| => Stored(ids[i], Row(emails[i], ages[i], stamps[i])))
  }

  class Database {
    var people: Table
    var writes: Table
    var updates: Table
    var deletes: Table
    var saved: State // what an open transaction rolls back to

    constructor (s: State)
      ensures Now() == s
    {
      people, writes, updates, deletes, saved := s.people, s.writes, s.updates, s.deletes, s;
    }

    method Begin()
      modifies this`saved
      ensures saved == Now() == old(Now())
    {
      saved := State(people, writes, updates, deletes);
    }

    method Commit()
      ensures Now() == old(Now())
    {
    }

    method Rollback()
      modifies this`people, this`writes, this`updates, this`deletes
      ensures Now() == saved
    {
      people, writes, updates, deletes := saved.people, saved.writes, saved.updates, saved.deletes;
    }

    ghost function Now(): State
      reads this
    {
      State(people, writes, updates, deletes)
    }

    /** INSERT … RETURNING of one row or many: all of them or none. */
    method InsertReturning(rows: seq<Stored>) returns (r: Returned)
      modifies this`writes
      ensures r.Refused? <==> Meets(old(writes), rows) || !Distinct(rows)
      ensures r.Refused? ==> writes == old(writes)
      ensures r.Returned? ==> r.rows == rows && writes == old(writes) + TableOf(rows)
    {
      var t := writes;
      for i := 0 to |rows|
        invariant writes == old(writes) && t == writes + TableOf(rows[..i])
        invariant !Meets(writes, rows[..i]) && Distinct(rows[..i])
      {
        InTableOf(rows[..i], rows[i].id);
        assert rows[..i + 1][..i] == rows[..i];
        if rows[i].id in t {
          if rows[i].id !in writes {
            var j :| 0 <= j < i && rows[..i][j].id == rows[i].id;
            assert rows[j].id == rows[i].id;
          }
          return Refused;
        }
        t := t[rows[i].id := rows[i].row];
      }
      assert rows[..|rows|] == rows;
      writes := t;
      return Returned(rows);
    }

    /** The same from four columns, which must be of one length: where one ran out there would be a
        null, and no column takes one. */
    method InsertUnnest(ids: seq<nat>, emails: seq<string>, ages: seq<int>, stamps: seq<int>) returns (r: Returned)
      modifies this`writes
      ensures !(|ids| == |emails| == |ages| == |stamps|) ==> r.Refused? && writes == old(writes)
      ensures |ids| == |emails| == |ages| == |stamps| ==>
                var rows := Zip(ids, emails, ages, stamps);
                && (r.Refused? <==> Meets(old(writes), rows) || !Distinct(rows))
                && (r.Refused? ==> writes == old(writes))
                && (r.Returned? ==> r.rows == rows && writes == old(writes) + TableOf(rows))
    {
      if !(|ids| == |emails| == |ages| == |stamps|) { return Refused; }
      r := InsertReturning(Zip(ids, emails, ages, stamps));
    }

    /** UPDATE … SET "age" … WHERE "id" … RETURNING. */
    method UpdateReturning(age: int, key: nat) returns (rows: seq<Stored>)
      modifies this`updates
      ensures updates == if key in old(updates) then old(updates)[key := old(updates)[key].(age := age)] else old(updates)
      ensures rows == if key in updates then [Stored(key, updates[key])] else []
    {
      if key !in updates { return []; }
      updates := updates[key := updates[key].(age := age)];
      return [Stored(key, updates[key])];
    }

    /** DELETE … WHERE "id" … RETURNING. */
    method DeleteReturning(id: nat) returns (rows: seq<Stored>)
      modifies this`deletes
      ensures deletes == old(deletes) - {id}
      ensures rows == if id in old(deletes) then [Stored(id, old(deletes)[id])] else []
    {
      rows := if id in deletes then [Stored(id, deletes[id])] else [];
      deletes := deletes - {id};
    }

    /** SELECT … WHERE "id" … LIMIT 1. */
    method Find(key: nat) returns (rows: seq<Stored>)
      ensures rows == if key in people then [Stored(key, people[key])] else []
    {
      rows := if key in people then [Stored(key, people[key])] else [];
    }

    /** `prepareWrites`. */
    method Prepare(shape: Shape)
      modifies this
      ensures Now() == Writes.Prepare(shape, old(Now()))
    {
      match shape
      case Insert | Batch => writes := map[];
      case Delete =>
        deletes := map[];
        deletes := deletes + Seeded("w", Rounds(shape));
      case Update | Tx =>
    }
  }

  /** `drainFour`, and the loops the mappers' arms tally their rows in. */
  method Drain(rows: seq<Stored>) returns (sum: int)
    ensures sum == SumStored(rows)
  {
    sum := 0;
    for i := 0 to |rows|
      invariant sum == SumStored(rows[..i])
    {
      assert rows[..i + 1][..i] == rows[..i];
      sum := sum + Tally(rows[i].id, rows[i].row);
    }
    assert rows[..|rows|] == rows;
  }

  /** These are the rows of keys `lo` up to `hi`, each stored as an arm writes it. */
  ghost predicate Rowed(rows: seq<Stored>, lo: nat, hi: nat) {
    lo <= hi && |rows| == hi - lo && forall k | 0 <= k < |rows| :: rows[k] == Stored(lo + k, Written(lo + k))
  }

  /** What inserting those rows does is what the round says. */
  lemma {:induction false} BuiltRows(rows: seq<Stored>, lo: nat, hi: nat)
    requires Rowed(rows, lo, hi)
    ensures TableOf(rows) == Rows(lo, hi) && SumStored(rows) == SumRows(Rows(lo, hi), lo, hi)
    ensures Distinct(rows)
    decreases hi
  {
    hide Written, Tally;
    if lo == hi {
      assert rows == [];
    } else {
      var most := rows[..|rows| - 1];
      BuiltRows(most, lo, hi - 1);
      assert rows[|rows| - 1] == Stored(hi - 1, Written(hi - 1));
      assert Rows(lo, hi) == Rows(lo, hi - 1)[hi - 1 := Written(hi - 1)];
      SumRowsSame(Rows(lo, hi), Rows(lo, hi - 1), lo, hi - 1);
    }
  }

  lemma BuiltMeet(t: Table, rows: seq<Stored>, lo: nat, hi: nat)
    requires Rowed(rows, lo, hi)
    ensures Meets(t, rows) <==> Clashes(t, lo, hi)
  {
    hide Written;
    if id :| lo <= id < hi && id in t { assert rows[id - lo].id in t; }
  }

  lemma DrainsOne(id: nat, t: Table)
    ensures SumStored(if id in t then [Stored(id, t[id])] else []) == Found(t, id)
  {
    assert id in t ==> [Stored(id, t[id])][..0] == [];
  }

  datatype Answer = Error | Sum(sum: int)

  /** What a method answers and leaves is what an outcome says. */
  ghost predicate Matches(r: Answer, s: State, o: Outcome) {
    match o
    case Failed(t) => r.Error? && s == t
    case Done(sum, t) => r == Sum(sum) && s == t
  }

  /** What came back from inserting the rows of keys `lo` up to `hi`, and the table it left. */
  lemma InsertMatches(before: State, writes: Table, rows: seq<Stored>, lo: nat, hi: nat, r: Returned, sum: int)
    requires Rowed(rows, lo, hi)
    requires r.Refused? <==> Meets(before.writes, rows) || !Distinct(rows)
    requires r.Refused? ==> writes == before.writes
    requires r.Returned? ==> r.rows == rows && writes == before.writes + TableOf(rows) && sum == SumStored(rows)
    ensures Matches(if r.Refused? then Error else Sum(sum), before.(writes := writes), InsertRows(before, lo, hi))
  {
    hide Rowed, Meets, Distinct, TableOf, SumStored, Rows, SumRows, Clashes;
    BuiltRows(rows, lo, hi);
    BuiltMeet(before.writes, rows, lo, hi);
  }

  /** Columns of the keys `lo` up to `hi` zip to their rows. */
  lemma ZipsRowed(ids: seq<nat>, emails: seq<string>, ages: seq<int>, stamps: seq<int>, lo: nat, hi: nat)
    requires lo <= hi && |ids| == |emails| == |ages| == |stamps| == hi - lo
    requires forall k | 0 <= k < |ids| ::
               && ids[k] == lo + k && emails[k] == WrittenEmail(lo + k)
               && ages[k] == WrittenAge(lo + k) && stamps[k] == WrittenTime(lo + k)
    ensures Rowed(Zip(ids, emails, ages, stamps), lo, hi)
  {
    hide WrittenEmail, WrittenAge, WrittenTime;
  }

  // ---- pgx: statements, and columns kept for the whole block ----

  /** `pgxTxRound`: BEGIN, a read, a write, COMMIT. */
  method PgxTxRound(db: Database, key: nat) returns (sum: int)
    modifies db
    ensures Matches(Sum(sum), db.Now(), UpdateRow(old(db.Now()), key, Found(old(db.people), key)))
  {
    hide SumStored, Found;
    sum := 0;
    db.Begin();
    var rows := db.Find(key);
    DrainsOne(key, db.people);
    var n := Drain(rows);
    sum := sum + n;
    rows := db.UpdateReturning(WrittenAge(key), key);
    DrainsOne(key, db.updates);
    n := Drain(rows);
    sum := sum + n;
    db.Commit();
  }

  /** The columns of one batch, written over whatever the round before left in them. */
  method FillColumns(ids: array<nat>, emails: array<string>, ages: array<int>, stamps: array<int>, i: nat)
    requires ids.Length == emails.Length == ages.Length == stamps.Length == BATCH_ROWS && ages != stamps
    modifies ids, emails, ages, stamps
    ensures Rowed(Zip(ids[..], emails[..], ages[..], stamps[..]), i * BATCH_ROWS + 1, i * BATCH_ROWS + 1 + BATCH_ROWS)
  {
    hide WrittenEmail, WrittenAge, WrittenTime, Zip, Rowed;
    var lo := i * BATCH_ROWS + 1;
    for j := 0 to BATCH_ROWS
      invariant forall k | 0 <= k < j ::
                  && ids[k] == lo + k && emails[k] == WrittenEmail(lo + k)
                  && ages[k] == WrittenAge(lo + k) && stamps[k] == WrittenTime(lo + k)
    {
      var rid := i * BATCH_ROWS + j + 1;
      ids[j], emails[j] := rid, WrittenEmail(rid);
      ages[j], stamps[j] := WrittenAge(rid), WrittenTime(rid);
    }
    ZipsRowed(ids[..], emails[..], ages[..], stamps[..], lo, lo + BATCH_ROWS);
  }

  /** One round of `pgxWriteBlock`. */
  method PgxRound(db: Database, shape: Shape, i: nat, ids: array<nat>, emails: array<string>, ages: array<int>,
                  stamps: array<int>) returns (r: Answer)
    requires ids.Length == emails.Length == ages.Length == stamps.Length == BATCH_ROWS && ages != stamps
    modifies db, ids, emails, ages, stamps
    ensures Matches(r, db.Now(), Round(Pgx, shape, i, old(db.Now())))
  {
    hide SumStored, Found, InsertRows, Zip, Rowed, Meets, Distinct, TableOf;
    var id, key := i + 1, i % 1000 + 1;
    ghost var before := db.Now();
    match shape
    case Insert =>
      OneRowed(id);
      var returned := db.InsertReturning([Stored(id, Row(WrittenEmail(id), WrittenAge(id), WrittenTime(id)))]);
      if returned.Refused? {
        InsertMatches(before, db.writes, [Stored(id, Written(id))], id, id + 1, returned, 0);
        return Error;
      }
      var n := Drain(returned.rows);
      InsertMatches(before, db.writes, returned.rows, id, id + 1, returned, n);
      return Sum(n);
    case Batch =>
      FillColumns(ids, emails, ages, stamps, i);
      ghost var rows := Zip(ids[..], emails[..], ages[..], stamps[..]);
      var returned := db.InsertUnnest(ids[..], emails[..], ages[..], stamps[..]);
      if returned.Refused? {
        InsertMatches(before, db.writes, rows, i * BATCH_ROWS + 1, i * BATCH_ROWS + 1 + BATCH_ROWS, returned, 0);
        return Error;
      }
      var n := Drain(returned.rows);
      InsertMatches(before, db.writes, rows, i * BATCH_ROWS + 1, i * BATCH_ROWS + 1 + BATCH_ROWS, returned, n);
      return Sum(n);
    case Update =>
      var rows := db.UpdateReturning(WrittenAge(key), key);
      DrainsOne(key, db.updates);
      var n := Drain(rows);
      return Sum(n);
    case Delete =>
      DrainsOne(id, db.deletes);
      var rows := db.DeleteReturning(id);
      var n := Drain(rows);
      return Sum(n);
    case Tx =>
      var n := PgxTxRound(db, key);
      return Sum(n);
  }

  /** `pgxWriteBlock`: the columns are made once and reused by every round. */
  method PgxBlock(db: Database, shape: Shape, rounds: nat) returns (r: Answer)
    modifies db
    ensures Matches(r, db.Now(), Block(Pgx, shape, rounds, old(db.Now())))
  {
    hide Round;
    var sum := 0;
    var ids, emails := new nat[BATCH_ROWS](_ => 0), new string[BATCH_ROWS](_ => "");
    var ages, stamps := new int[BATCH_ROWS](_ => 0), new int[BATCH_ROWS](_ => 0);
    for i := 0 to rounds
      invariant Block(Pgx, shape, i, old(db.Now())) == Done(sum, db.Now())
    {
      var n := PgxRound(db, shape, i, ids, emails, ages, stamps);
      if n.Error? {
        FailedStays(Pgx, shape, i + 1, rounds, old(db.Now()));
        return Error;
      }
      sum := sum + n.sum;
    }
    return Sum(sum);
  }

  // ---- tokio-postgres and SQLx: statements, and columns made for each round ----

  /** Fresh columns for the keys of one batch. */
  method NewColumns(i: nat) returns (ids: seq<nat>, emails: seq<string>, ages: seq<int>, stamps: seq<int>)
    ensures |ids| == |emails| == |ages| == |stamps| == BATCH_ROWS
    ensures Rowed(Zip(ids, emails, ages, stamps), i * BATCH_ROWS + 1, i * BATCH_ROWS + 1 + BATCH_ROWS)
  {
    hide WrittenEmail, WrittenAge, WrittenTime, Zip, Rowed;
    ids, emails, ages, stamps := [], [], [], [];
    for j := 0 to BATCH_ROWS
      invariant |ids| == |emails| == |ages| == |stamps| == j
      invariant forall k | 0 <= k < j ::
                  && ids[k] == i * BATCH_ROWS + 1 + k && emails[k] == WrittenEmail(i * BATCH_ROWS + 1 + k)
                  && ages[k] == WrittenAge(i * BATCH_ROWS + 1 + k) && stamps[k] == WrittenTime(i * BATCH_ROWS + 1 + k)
    {
      var rid := i * BATCH_ROWS + j + 1;
      ids, emails := ids + [rid], emails + [WrittenEmail(rid)];
      ages, stamps := ages + [WrittenAge(rid)], stamps + [WrittenTime(rid)];
    }
    ZipsRowed(ids, emails, ages, stamps, i * BATCH_ROWS + 1, i * BATCH_ROWS + 1 + BATCH_ROWS);
  }

  /** One round of `raw_write_block`: the two sums of a transaction are added to the block's own as
      they come, before COMMIT. */
  method TokioRound(db: Database, shape: Shape, i: nat, start: int) returns (r: Answer)
    modifies db
    ensures Matches(r, db.Now(), Plus(start, Round(TokioPg, shape, i, old(db.Now()))))
  {
    hide SumStored, Found, InsertRows, Zip, Rowed, Meets, Distinct, TableOf;
    var sum, id, key := start, i + 1, i % 1000 + 1;
    var rows: seq<Stored>;
    ghost var before := db.Now();
    match shape {
      case Insert =>
        OneRowed(id);
        var returned := db.InsertReturning([Stored(id, Row(WrittenEmail(id), WrittenAge(id), WrittenTime(id)))]);
        InsertMatches(before, db.writes, [Stored(id, Written(id))], id, id + 1, returned,
                      if returned.Refused? then 0 else SumStored(returned.rows));
        if returned.Refused? { return Error; }
        rows := returned.rows;
      case Batch =>
        var ids, emails, ages, stamps := NewColumns(i);
        var returned := db.InsertUnnest(ids, emails, ages, stamps);
        InsertMatches(before, db.writes, Zip(ids, emails, ages, stamps), i * BATCH_ROWS + 1,
                      i * BATCH_ROWS + 1 + BATCH_ROWS, returned,
                      if returned.Refused? then 0 else SumStored(returned.rows));
        if returned.Refused? { return Error; }
        rows := returned.rows;
      case Update =>
        rows := db.UpdateReturning(WrittenAge(key), key);
        DrainsOne(key, db.updates);
      case Delete =>
        DrainsOne(id, db.deletes);
        rows := db.DeleteReturning(id);
      case Tx =>
        db.Begin();
        rows := db.Find(key);
        DrainsOne(key, db.people);
        var n := Drain(rows);
        sum := sum + n;
        rows := db.UpdateReturning(WrittenAge(key), key);
        DrainsOne(key, db.updates);
        n := Drain(rows);
        sum := sum + n;
        db.Commit();
        return Sum(sum);
    }
    var n := Drain(rows);
    return Sum(sum + n);
  }

  method TokioBlock(db: Database, shape: Shape, rounds: nat) returns (r: Answer)
    modifies db
    ensures Matches(r, db.Now(), Block(TokioPg, shape, rounds, old(db.Now())))
  {
    hide Round;
    var sum := 0;
    for i := 0 to rounds
      invariant Block(TokioPg, shape, i, old(db.Now())) == Done(sum, db.Now())
    {
      var n := TokioRound(db, shape, i, sum);
      if n.Error? {
        FailedStays(TokioPg, shape, i + 1, rounds, old(db.Now()));
        return Error;
      }
      sum := n.sum;
    }
    return Sum(sum);
  }

  /** The loops that tally rows into a sum that is already running. */
  method Add(start: int, rows: seq<Stored>) returns (sum: int)
    ensures sum == start + SumStored(rows)
  {
    sum := start;
    for k := 0 to |rows|
      invariant sum == start + SumStored(rows[..k])
    {
      assert rows[..k + 1][..k] == rows[..k];
      sum := sum + Tally(rows[k].id, rows[k].row);
    }
    assert rows[..|rows|] == rows;
  }

  /** One round of `sqlx_write_block`. */
  method SqlxRound(db: Database, shape: Shape, i: nat, start: int) returns (r: Answer)
    modifies db
    ensures Matches(r, db.Now(), Plus(start, Round(Sqlx, shape, i, old(db.Now()))))
  {
    hide SumStored, Found, InsertRows, Zip, Rowed, Meets, Distinct, TableOf;
    var sum, id, key := start, i + 1, i % 1000 + 1;
    ghost var before := db.Now();
    var rows: seq<Stored>;
    if shape.Tx? {
      db.Begin();
      rows := db.Find(key);
      DrainsOne(key, db.people);
      sum := Add(sum, rows);
      rows := db.UpdateReturning(WrittenAge(key), key);
      DrainsOne(key, db.updates);
      sum := Add(sum, rows);
      db.Commit();
      return Sum(sum);
    }
    match shape {
      case Insert =>
        OneRowed(id);
        var returned := db.InsertReturning([Stored(id, Row(WrittenEmail(id), WrittenAge(id), WrittenTime(id)))]);
        InsertMatches(before, db.writes, [Stored(id, Written(id))], id, id + 1, returned,
                      if returned.Refused? then 0 else SumStored(returned.rows));
        if returned.Refused? { return Error; }
        rows := returned.rows;
      case Batch =>
        var ids, emails, ages, stamps := NewColumns(i);
        var returned := db.InsertUnnest(ids, emails, ages, stamps);
        InsertMatches(before, db.writes, Zip(ids, emails, ages, stamps), i * BATCH_ROWS + 1,
                      i * BATCH_ROWS + 1 + BATCH_ROWS, returned,
                      if returned.Refused? then 0 else SumStored(returned.rows));
        if returned.Refused? { return Error; }
        rows := returned.rows;
      case Update =>
        rows := db.UpdateReturning(WrittenAge(key), key);
        DrainsOne(key, db.updates);
      case Delete =>
        DrainsOne(id, db.deletes);
        rows := db.DeleteReturning(id);
    }
    sum := Add(sum, rows);
    return Sum(sum);
  }

  method SqlxBlock(db: Database, shape: Shape, rounds: nat) returns (r: Answer)
    modifies db
    ensures Matches(r, db.Now(), Block(Sqlx, shape, rounds, old(db.Now())))
  {
    hide Round;
    var sum := 0;
    for i := 0 to rounds
      invariant Block(Sqlx, shape, i, old(db.Now())) == Done(sum, db.Now())
    {
      var n := SqlxRound(db, shape, i, sum);
      if n.Error? {
        FailedStays(Sqlx, shape, i + 1, rounds, old(db.Now()));
        return Error;
      }
      sum := n.sum;
    }
    return Sum(sum);
  }

  // ---- Diesel and GORM: rows of their own, and transactions as closures ----

  /** The rows of keys `lo` up to `hi`, one record at a time. */
  method NewRows(lo: nat, hi: nat) returns (rows: seq<Stored>)
    requires lo <= hi
    ensures Rowed(rows, lo, hi)
  {
    rows := [];
    for id := lo to hi
      invariant Rowed(rows, lo, id)
    {
      rows := rows + [Stored(id, Row(WrittenEmail(id), WrittenAge(id), WrittenTime(id)))];
    }
  }

  /** Diesel's transaction: the closure adds up a sum of its own, handed out once it has committed. */
  method DieselTransaction(db: Database, key: nat) returns (got: int)
    modifies db
    ensures Matches(Sum(got), db.Now(), UpdateRow(old(db.Now()), key, Found(old(db.people), key)))
  {
    hide SumStored, Found;
    db.Begin();
    var inner := 0;
    var rows := db.Find(key);
    DrainsOne(key, db.people);
    inner := Add(inner, rows);
    rows := db.UpdateReturning(WrittenAge(key), key);
    DrainsOne(key, db.updates);
    inner := Add(inner, rows);
    db.Commit();
    return inner;
  }

  /** One round of `diesel_write_block`. */
  method DieselRound(db: Database, shape: Shape, i: nat, start: int) returns (r: Answer)
    modifies db
    ensures Matches(r, db.Now(), Plus(start, Round(Diesel, shape, i, old(db.Now()))))
  {
    hide SumStored, Found, InsertRows, Rowed, Meets, Distinct, TableOf;
    var sum, id, key := start, i + 1, i % 1000 + 1;
    ghost var before := db.Now();
    match shape
    case Insert =>
      OneRowed(id);
      var returned := db.InsertReturning([Stored(id, Row(WrittenEmail(id), WrittenAge(id), WrittenTime(id)))]);
      InsertMatches(before, db.writes, [Stored(id, Written(id))], id, id + 1, returned,
                    if returned.Refused? then 0 else SumStored(returned.rows));
      if returned.Refused? { return Error; }
      sum := Add(sum, returned.rows);
      return Sum(sum);
    case Batch =>
      var rows := NewRows(i * BATCH_ROWS + 1, i * BATCH_ROWS + 1 + BATCH_ROWS);
      var returned := db.InsertReturning(rows);
      InsertMatches(before, db.writes, rows, i * BATCH_ROWS + 1, i * BATCH_ROWS + 1 + BATCH_ROWS, returned,
                    if returned.Refused? then 0 else SumStored(returned.rows));
      if returned.Refused? { return Error; }
      sum := Add(sum, returned.rows);
      return Sum(sum);
    case Update =>
      var rows := db.UpdateReturning(WrittenAge(key), key);
      DrainsOne(key, db.updates);
      sum := Add(sum, rows);
      return Sum(sum);
    case Delete =>
      DrainsOne(id, db.deletes);
      var rows := db.DeleteReturning(id);
      sum := Add(sum, rows);
      return Sum(sum);
    case Tx =>
      var got := DieselTransaction(db, key);
      return Sum(sum + got);
  }

  method DieselBlock(db: Database, shape: Shape, rounds: nat) returns (r: Answer)
    modifies db
    ensures Matches(r, db.Now(), Block(Diesel, shape, rounds, old(db.Now())))
  {
    hide Round;
    var sum := 0;
    for i := 0 to rounds
      invariant Block(Diesel, shape, i, old(db.Now())) == Done(sum, db.Now())
    {
      var n := DieselRound(db, shape, i, sum);
      if n.Error? {
        FailedStays(Diesel, shape, i + 1, rounds, old(db.Now()));
        return Error;
      }
      sum := n.sum;
    }
    return Sum(sum);
  }

  /** What the transaction comes to, and what it leaves. */
  ghost function TakeAndUpdate(s: State, key: nat): Outcome {
    if key !in s.people then Failed(s) else UpdateRow(s, key, Found(s.people, key))
  }

  /** GORM's transaction: the closure adds straight to the block's sum; `Take` is an error when there
      is no row, and an error rolls back. */
  method GormTransaction(db: Database, key: nat, start: int) returns (r: Answer)
    modifies db
    ensures Matches(r, db.Now(), Plus(start, TakeAndUpdate(old(db.Now()), key)))
  {
    hide SumStored;
    var sum := start;
    db.Begin();
    var rows := db.Find(key);
    if rows == [] {
      db.Rollback();
      return Error;
    }
    var p := rows[0];
    sum := sum + Tally(p.id, p.row);
    rows := db.UpdateReturning(WrittenAge(key), key);
    DrainsOne(key, db.updates);
    sum := Add(sum, rows);
    db.Commit();
    return Sum(sum);
  }

  /** One round of `gormWriteBlock`. What is created is read back into the rows it was created from. */
  method GormRound(db: Database, shape: Shape, i: nat, start: int) returns (r: Answer)
    modifies db
    ensures Matches(r, db.Now(), Plus(start, Round(Gorm, shape, i, old(db.Now()))))
  {
    hide SumStored, Found, InsertRows, Rowed, Meets, Distinct, TableOf;
    var sum, id, key := start, i + 1, i % 1000 + 1;
    ghost var before := db.Now();
    match shape
    case Insert =>
      OneRowed(id);
      var w := Stored(id, Row(WrittenEmail(id), WrittenAge(id), WrittenTime(id)));
      var returned := db.InsertReturning([w]);
      InsertMatches(before, db.writes, [Stored(id, Written(id))], id, id + 1, returned,
                    if returned.Refused? then 0 else SumStored(returned.rows));
      if returned.Refused? { return Error; }
      OneStored(returned.rows);
      w := returned.rows[0];
      return Sum(sum + Tally(w.id, w.row));
    case Batch =>
      var ws := NewRows(i * BATCH_ROWS + 1, i * BATCH_ROWS + 1 + BATCH_ROWS);
      var returned := db.InsertReturning(ws);
      InsertMatches(before, db.writes, ws, i * BATCH_ROWS + 1, i * BATCH_ROWS + 1 + BATCH_ROWS, returned,
                    if returned.Refused? then 0 else SumStored(returned.rows));
      if returned.Refused? { return Error; }
      ws := returned.rows;
      sum := Add(sum, ws);
      return Sum(sum);
    case Update =>
      var us := db.UpdateReturning(WrittenAge(key), key);
      DrainsOne(key, db.updates);
      sum := Add(sum, us);
      return Sum(sum);
    case Delete =>
      DrainsOne(id, db.deletes);
      var ds := db.DeleteReturning(id);
      sum := Add(sum, ds);
      return Sum(sum);
    case Tx =>
      r := GormTransaction(db, key, sum);
  }

  method GormBlock(db: Database, shape: Shape, rounds: nat) returns (r: Answer)
    modifies db
    ensures Matches(r, db.Now(), Block(Gorm, shape, rounds, old(db.Now())))
  {
    hide Round;
    var sum := 0;
    for i := 0 to rounds
      invariant Block(Gorm, shape, i, old(db.Now())) == Done(sum, db.Now())
    {
      var n := GormRound(db, shape, i, sum);
      if n.Error? {
        FailedStays(Gorm, shape, i + 1, rounds, old(db.Now()));
        return Error;
      }
      sum := n.sum;
    }
    return Sum(sum);
  }

  lemma OneRowed(id: nat)
    ensures Rowed([Stored(id, Written(id))], id, id + 1)
  {
  }

  lemma OneStored(rows: seq<Stored>)
    requires |rows| == 1
    ensures SumStored(rows) == Tally(rows[0].id, rows[0].row)
  {
    assert rows[..0] == [];
  }

  /** Each arm's own block. */
  method RunBlock(db: Database, arm: Arm, shape: Shape, rounds: nat) returns (r: Answer)
    modifies db
    ensures Matches(r, db.Now(), Block(arm, shape, rounds, old(db.Now())))
  {
    match arm
    case Pgx => r := PgxBlock(db, shape, rounds);
    case Gorm => r := GormBlock(db, shape, rounds);
    case TokioPg => r := TokioBlock(db, shape, rounds);
    case Diesel => r := DieselBlock(db, shape, rounds);
    case Sqlx => r := SqlxBlock(db, shape, rounds);
  }

  lemma {:induction false} FailedStays(arm: Arm, shape: Shape, i: nat, n: nat, s: State)
    requires i <= n && Block(arm, shape, i, s).Failed?
    ensures Block(arm, shape, n, s) == Block(arm, shape, i, s)
    decreases n - i
  {
    if i < n { FailedStays(arm, shape, i, n - 1, s); }
  }

  // ---- the interleaving loops ----

  datatype Language = Go | Rust

  /** The arms of block `b` in turn: flipped on odd blocks, or rotated by thirds. */
  function Order(language: Language, b: nat): seq<Arm> {
    match language
    case Go => if b % 2 == 1 then [Gorm, Pgx] else [Pgx, Gorm]
    case Rust =>
      if b % 3 == 0 then [TokioPg, Diesel, Sqlx] else if b % 3 == 1 then [Diesel, Sqlx, TokioPg] else [Sqlx, TokioPg, Diesel]
  }

  predicate Runs(language: Language, arm: Arm) {
    match language case Go => arm.Pgx? || arm.Gorm? case Rust => arm.TokioPg? || arm.Diesel? || arm.Sqlx?
  }

  lemma OrderHasAll(language: Language, b: nat)
    ensures forall arm :: arm in Order(language, b) <==> Runs(language, arm)
    ensures forall i, j | 0 <= i < j < |Order(language, b)| :: Order(language, b)[i] != Order(language, b)[j]
  {
  }

  /** The fixture as the runs keep it. */
  ghost predicate Kept(people: Table, updates: Table, s: State) {
    s.people == people && SameButAges(updates, s.updates)
  }

  /** The main loop for one shape: before each arm's block the tables are put back; an error would
      end the program. There is none, and every arm's checksum is the shape's. */
  method Compare(db: Database, language: Language, shape: Shape, blocks: nat, ghost people: Table, ghost updates: Table)
    returns (sums: map<Arm, int>, failed: bool)
    requires Kept(people, updates, db.Now()) && Has(people, 50)
    modifies db
    ensures !failed && Kept(people, updates, db.Now())
    ensures forall arm :: arm in sums <==> blocks > 0 && Runs(language, arm)
    ensures forall arm <- sums :: sums[arm] == Checksum(shape, people, updates)
  {
    hide Has, Block, Checksum, SameButAges, Writes.Prepare, Runs, Order;
    sums, failed := map[], false;
    for b := 0 to blocks
      invariant Kept(people, updates, db.Now())
      invariant forall arm :: arm in sums <==> b > 0 && Runs(language, arm)
      invariant forall arm <- sums :: sums[arm] == Checksum(shape, people, updates)
    {
      OrderHasAll(language, b);
      var order := Order(language, b);
      for k := 0 to |order|
        invariant Kept(people, updates, db.Now())
        invariant forall arm :: arm in sums <==> (b > 0 && Runs(language, arm)) || arm in order[..k]
        invariant forall arm <- sums :: sums[arm] == Checksum(shape, people, updates)
      {
        ghost var s := db.Now();
        TurnKeeps(Turn(order[k], shape), people, updates, s);
        db.Prepare(shape);
        var r := RunBlock(db, order[k], shape, Rounds(shape));
        if r.Error? { return sums, true; }
        assert order[..k + 1] == order[..k] + [order[k]];
        sums := sums[order[k] := r.sum];
      }
      assert order[..|order|] == order;
    }
  }

  lemma TurnKeeps(turn: Turn, people: Table, updates: Table, s: State)
    requires Kept(people, updates, s) && Has(people, 50)
    ensures Block(turn.arm, turn.shape, Rounds(turn.shape), Writes.Prepare(turn.shape, s)).Done?
    ensures Block(turn.arm, turn.shape, Rounds(turn.shape), Writes.Prepare(turn.shape, s)).sum
            == Checksum(turn.shape, people, updates)
    ensures Kept(people, updates, Block(turn.arm, turn.shape, Rounds(turn.shape), Writes.Prepare(turn.shape, s)).state)
  {
    hide Block, Writes.Prepare, Rounds, SumAged, SumKeys, SumRows, Rows, Has;
    TurnWorks(turn, s);
    SumAgedSame(updates, s.updates, 50);
  }
}
