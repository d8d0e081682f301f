/** What the hand-written decoder's sum does not depend on: the order of a message's fields, and
    fields it does not know, at whatever depth they appear. */
module ProtoOrder {
  import opened Bytes
  import opened Common
  import opened Wire
  import opened Proto

  predicate Accepted(level: Level, fs: seq<Field>) {
    forall f <- fs :: FieldValue(level, f).Ok?
  }

  /** What accepted fields add up to before any wrapping. */
  function Total(level: Level, fs: seq<Field>): nat
    requires Accepted(level, fs)
  {
    if fs == [] then 0
    else
      assert fs[0] in fs && forall f <- fs[1..] :: f in fs;
      FieldValue(level, fs[0]).value + Total(level, fs[1..])
  }

  lemma AddedOnce(a: nat, b: nat, c: nat)
    requires a < TWO_64
    ensures Wrap64(Add(a, b) + c) == Wrap64(a + (b + c))
    ensures Wrap64(a) == a
  {
    Wraps64(a + b, c);
  }

  /** The decoder succeeds exactly when it accepts every field, and then has the wrapped total. */
  lemma {:induction false} SumOutcome(level: Level, fs: seq<Field>, sum: nat)
    requires sum < TWO_64
    ensures SumFrom(level, fs, sum).Ok? <==> Accepted(level, fs)
    ensures Accepted(level, fs) ==> SumFrom(level, fs, sum) == Ok(Wrap64(sum + Total(level, fs)))
    decreases |fs|
  {
    hide FieldValue, Add, Wrap64;
    if fs == [] {
      AddedOnce(sum, 0, 0);
    } else {
      assert fs == [fs[0]] + fs[1..];
      var v := FieldValue(level, fs[0]);
      if v.Ok? {
        SumOutcome(level, fs[1..], Add(sum, v.value));
        if Accepted(level, fs[1..]) { AddedOnce(sum, v.value, Total(level, fs[1..])); }
      }
    }
  }

  lemma {:induction false} TotalSplits(level: Level, fs: seq<Field>, i: nat)
    requires i < |fs| && Accepted(level, fs)
    ensures Accepted(level, fs[..i] + fs[i + 1..])
    ensures Total(level, fs) == FieldValue(level, fs[i]).value + Total(level, fs[..i] + fs[i + 1..])
    decreases |fs|
  {
    hide FieldValue;
    var gs := fs[..i] + fs[i + 1..];
    assert forall g <- gs :: g in fs;
    if i == 0 {
      assert gs == fs[1..];
    } else {
      assert forall g <- fs[1..] :: g in fs;
      TotalSplits(level, fs[1..], i - 1);
      assert gs[0] == fs[0] && gs[1..] == fs[1..][..i - 1] + fs[1..][i..];
    }
  }

  lemma RemoveOne<T>(s: seq<T>, i: nat)
    requires i < |s|
    ensures multiset(s) == multiset{s[i]} + multiset(s[..i] + s[i + 1..])
  {
    assert s == s[..i] + [s[i]] + s[i + 1..];
  }

  lemma Cancel<T>(x: T, a: multiset<T>, b: multiset<T>)
    requires multiset{x} + a == multiset{x} + b
    ensures a == b
  {
    assert a == multiset{x} + a - multiset{x};
  }

  /** A permutation has the head somewhere, and what is left over permutes the tail. */
  lemma MatchHead<T>(fs: seq<T>, gs: seq<T>) returns (i: nat)
    requires fs != [] && multiset(fs) == multiset(gs)
    ensures i < |gs| && gs[i] == fs[0]
    ensures multiset(gs[..i] + gs[i + 1..]) == multiset(fs[1..])
  {
    assert fs[0] in multiset(fs);
    assert fs[0] in gs;
    i :| 0 <= i < |gs| && gs[i] == fs[0];
    RemoveOne(gs, i);
    RemoveOne(fs, 0);
    assert fs[..0] + fs[1..] == fs[1..];
    Cancel(fs[0], multiset(gs[..i] + gs[i + 1..]), multiset(fs[1..]));
  }

  lemma SameElements<T>(fs: seq<T>, gs: seq<T>)
    requires multiset(fs) == multiset(gs)
    ensures |fs| == |gs| && forall g <- gs :: g in fs
  {
    assert |multiset(fs)| == |fs| && |multiset(gs)| == |gs|;
    forall g | g in gs ensures g in fs { assert g in multiset(gs); }
  }

  lemma {:induction false} TotalPermutes(level: Level, fs: seq<Field>, gs: seq<Field>)
    requires Accepted(level, fs) && multiset(fs) == multiset(gs)
    ensures Accepted(level, gs) && Total(level, fs) == Total(level, gs)
    decreases |fs|
  {
    hide FieldValue;
    SameElements(fs, gs);
    if fs != [] {
      var i := MatchHead(fs, gs);
      assert forall f <- fs[1..] :: f in fs;
      TotalPermutes(level, fs[1..], gs[..i] + gs[i + 1..]);
      TotalSplits(level, gs, i);
    }
  }

  /** The fields of the numbers that a message's loop has an arm for. */
  function Known(level: Level, fs: seq<Field>): seq<Field> {
    if fs == [] then []
    else (if Listed(level, fs[0]) then [fs[0]] else []) + Known(level, fs[1..])
  }

  lemma {:induction false} UnknownAddNothing(level: Level, fs: seq<Field>)
    ensures Accepted(level, fs) <==> Accepted(level, Known(level, fs))
    ensures Accepted(level, fs) ==> Total(level, fs) == Total(level, Known(level, fs))
    decreases |fs|
  {
    if fs != [] {
      var f, rest := fs[0], fs[1..];
      UnknownAddNothing(level, rest);
      assert fs == [f] + rest;
      if Listed(level, f) {
        ConsKnown(level, f, rest);
      } else {
        assert Known(level, fs) == Known(level, rest);
        UnlistedAddsNothing(level, f);
      }
    }
  }

  lemma ConsKnown(level: Level, f: Field, rest: seq<Field>)
    requires Listed(level, f)
    ensures var fs := [f] + rest;
            && Known(level, fs) == [f] + Known(level, rest)
            && Known(level, fs)[1..] == Known(level, rest)
  {
    assert ([f] + rest)[1..] == rest;
  }

  /** The same known fields, in any order, among any unknown ones. */
  ghost predicate Rearranged(level: Level, fs: seq<Field>, gs: seq<Field>) {
    multiset(Known(level, fs)) == multiset(Known(level, gs))
  }

  /** Two decodings agree: the same sum, or both refused. */
  predicate Agree(a: Result<nat>, b: Result<nat>) {
    if a.Ok? then b == a else b.Err?
  }

  lemma RearrangedSums(level: Level, fs: seq<Field>, gs: seq<Field>)
    requires Rearranged(level, fs, gs)
    ensures Agree(SumFrom(level, fs, 0), SumFrom(level, gs, 0))
  {
    hide FieldValue, Known;
    SumOutcome(level, fs, 0);
    SumOutcome(level, gs, 0);
    UnknownAddNothing(level, fs);
    UnknownAddNothing(level, gs);
    if Accepted(level, fs) {
      TotalPermutes(level, Known(level, fs), Known(level, gs));
    } else if Accepted(level, gs) {
      TotalPermutes(level, Known(level, gs), Known(level, fs));
    }
  }

  /** Reordering a message's fields and putting unknown well-formed fields anywhere among them
      leaves what `stream` adds up unchanged. */
  lemma RearrangedStreams(level: Level, fs: seq<Field>, gs: seq<Field>)
    requires AllWellFormed(fs) && AllWellFormed(gs) && Rearranged(level, fs, gs)
    ensures Agree(Stream(level, SerializeAll(fs)), Stream(level, SerializeAll(gs)))
  {
    hide SumFrom, StreamFrom, SerializeAll;
    StreamIsFieldSum(level, fs, 0);
    StreamIsFieldSum(level, gs, 0);
    RearrangedSums(level, fs, gs);
  }

  // ---- at any depth ----

  /** A message as a tree: a field that is itself a message keeps its fields. */
  datatype Item = Leaf(field: Field) | Node(number: nat, items: seq<Item>)

  function ItemField(item: Item): Field
    decreases item
  {
    match item
    case Leaf(f) => f
    case Node(number, items) => Field(number, Len(SerializeAll(Fields(items))))
  }

  function Fields(items: seq<Item>): (fs: seq<Field>)
    ensures |fs| == |items|
    ensures forall i :: 0 <= i < |items| ==> fs[i] == ItemField(items[i])
    decreases items
  {
    if items == [] then [] else [ItemField(items[0])] + Fields(items[1..])
  }

  ghost predicate TreeWellFormed(items: seq<Item>)
    decreases items
  {
    && AllWellFormed(Fields(items))
    && forall i :: 0 <= i < |items| && items[i].Node? ==> TreeWellFormed(items[i].items)
  }

  /** `path` leads from the message at `level` down message fields to the one at `at`. */
  ghost predicate Leads(level: Level, items: seq<Item>, path: seq<nat>, at: Level)
    decreases |path|
  {
    if path == [] then level == at
    else
      && path[0] < |items|
      && items[path[0]].Node?
      && MessageIn(level, items[path[0]].number).Some?
      && Leads(MessageIn(level, items[path[0]].number).value, items[path[0]].items, path[1..], at)
  }

  function ItemsAt(items: seq<Item>, path: seq<nat>): seq<Item> {
    if path == [] then items
    else if path[0] < |items| && items[path[0]].Node? then ItemsAt(items[path[0]].items, path[1..])
    else []
  }

  function Replace(items: seq<Item>, path: seq<nat>, with: seq<Item>): seq<Item> {
    if path == [] then with
    else if path[0] < |items| && items[path[0]].Node? then
      items[path[0] := Node(items[path[0]].number, Replace(items[path[0]].items, path[1..], with))]
    else items
  }

  lemma ReplaceOneField(level: Level, fs: seq<Field>, i: nat, f: Field)
    requires i < |fs| && Agree(FieldValue(level, fs[i]), FieldValue(level, f))
    ensures Agree(SumFrom(level, fs, 0), SumFrom(level, fs[i := f], 0))
  {
    hide FieldValue;
    var gs := fs[i := f];
    SumOutcome(level, fs, 0);
    SumOutcome(level, gs, 0);
    assert fs[i] in fs && gs[i] in gs;
    assert gs[..i] + gs[i + 1..] == fs[..i] + fs[i + 1..];
    assert forall g <- gs :: g == f || g in fs;
    assert forall g <- fs :: g == fs[i] || g in gs by {
      forall g | g in fs ensures g == fs[i] || g in gs {
        var j :| 0 <= j < |fs| && fs[j] == g;
        assert j == i || gs[j] == g;
      }
    }
    if Accepted(level, fs) {
      TotalSplits(level, fs, i);
      TotalSplits(level, gs, i);
    }
  }

  lemma NodeValue(level: Level, next: Level, node: Item)
    requires node.Node? && MessageIn(level, node.number) == Some(next)
    ensures FieldValue(level, ItemField(node)) == Stream(next, SerializeAll(Fields(node.items)))
  {
    hide StreamFrom, SerializeAll, FieldValue;
    MessageStreams(level, ItemField(node));
  }

  /** Rearranging the fields of a message nested at any depth, in any message of the request,
      leaves the sum of the whole request unchanged. */
  lemma {:induction false} RearrangedAtAnyDepth(level: Level, items: seq<Item>, path: seq<nat>, at: Level, with: seq<Item>)
    requires TreeWellFormed(items) && TreeWellFormed(Replace(items, path, with))
    requires Leads(level, items, path, at)
    requires Rearranged(at, Fields(ItemsAt(items, path)), Fields(with))
    ensures Agree(Stream(level, SerializeAll(Fields(items))),
                  Stream(level, SerializeAll(Fields(Replace(items, path, with)))))
    decreases |path|
  {
    hide SumFrom, StreamFrom, SerializeAll;
    if path == [] {
      RearrangedStreams(level, Fields(items), Fields(with));
    } else {
      var i := path[0];
      var node := items[i];
      var items' := Replace(items, path, with);
      var next := MessageIn(level, node.number).value;
      assert items'[i] == Node(node.number, Replace(node.items, path[1..], with));
      hide MessageIn, FieldValue;
      RearrangedAtAnyDepth(next, node.items, path[1..], at, with);
      NodeValue(level, next, node);
      NodeValue(level, next, items'[i]);
      assert Fields(items') == Fields(items)[i := ItemField(items'[i])];
      ReplaceOneField(level, Fields(items), i, ItemField(items'[i]));
      StreamIsFieldSum(level, Fields(items), 0);
      StreamIsFieldSum(level, Fields(items'), 0);
    }
  }
}
