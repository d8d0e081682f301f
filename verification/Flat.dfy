/** Which types a cache may hold as bytes, and that such bytes mean the same anywhere
    (cache/flat.zig:40-127). */
module Flat {
  import opened Bytes
  import opened Common

  /** A type as the compiler describes it. What is behind a pointer is not part of it. */
  datatype Type =
    | Number(size: nat) // an integer, a float, a bool or an enum
    | Array(n: nat, child: Type)
    | Vector(n: nat, child: Type)
    | Optional(child: Type)
    | Struct(fields: seq<Member>)
    | Union(tagged: bool, fields: seq<Member>)
    | Pointer
    | ByteSlice
    | Void
    | Other

  datatype Member = Member(name: string, of: Type)

  /** One step from a type to a component. */
  datatype Step = Element | Payload | Field(i: nat)

  datatype Reason = IsPointer | IsUntagged | IsVoid | IsOther

  datatype Verdict = Accepted | Refused(path: seq<Step>, reason: Reason)

  function Under(step: Step, v: Verdict): Verdict {
    match v case Accepted => Accepted case Refused(path, reason) => Refused([step] + path, reason)
  }

  /** `ensureFlat`: stop at the first component that could not be copied out and back in. */
  function EnsureFlat(t: Type): Verdict
    decreases t
  {
    match t
    case Number(_) => Accepted
    case Array(_, child) => Under(Element, EnsureFlat(child))
    case Vector(_, child) => Under(Element, EnsureFlat(child))
    case Optional(child) => Under(Payload, EnsureFlat(child))
    case Struct(fields) => EnsureFields(fields, 0)
    case Union(tagged, fields) => if tagged then EnsureFields(fields, 0) else Refused([], IsUntagged)
    case Pointer => Refused([], IsPointer)
    case ByteSlice => Refused([], IsPointer)
    case Void => Refused([], IsVoid)
    case Other => Refused([], IsOther)
  }

  /** The fields in order, the first of them being field `i`. */
  function EnsureFields(fields: seq<Member>, i: nat): Verdict
    decreases fields
  {
    if fields == [] then Accepted
    else
      var first := Under(Field(i), EnsureFlat(fields[0].of));
      if first.Refused? then first else EnsureFields(fields[1..], i + 1)
  }

  // ---- what it decides ----

  /** The component a path leads to. */
  function Component(t: Type, path: seq<Step>): Option<Type>
    decreases |path|
  {
    if path == [] then Some(t)
    else
      match (t, path[0])
      case (Array(_, child), Element) => Component(child, path[1..])
      case (Vector(_, child), Element) => Component(child, path[1..])
      case (Optional(child), Payload) => Component(child, path[1..])
      case (Struct(fields), Field(i)) => if i < |fields| then Component(fields[i].of, path[1..]) else None
      case (Union(_, fields), Field(i)) => if i < |fields| then Component(fields[i].of, path[1..]) else None
      case _ => None
  }

  /** Why a component, by itself, cannot be kept. */
  function Offence(t: Type): Option<Reason> {
    match t
    case Pointer => Some(IsPointer)
    case ByteSlice => Some(IsPointer)
    case Void => Some(IsVoid)
    case Other => Some(IsOther)
    case Union(tagged, _) => if tagged then None else Some(IsUntagged)
    case _ => None
  }

  /** By kind: nothing but an array, a vector, an optional, a struct and a tagged union is made of parts,
      and of the rest only a number is kept. */
  lemma OffenceByKind(t: Type)
    ensures Offence(t) == Some(IsPointer) <==> t.Pointer? || t.ByteSlice?
    ensures Offence(t) == Some(IsVoid) <==> t.Void?
    ensures Offence(t) == Some(IsUntagged) <==> t.Union? && !t.tagged
    ensures Offence(t) == Some(IsOther) <==> t.Other?
    ensures Component(t, [Element]).Some? <==> t.Array? || t.Vector?
    ensures Component(t, [Payload]).Some? <==> t.Optional?
    ensures forall i: nat :: Component(t, [Field(i)]).Some? <==> (t.Struct? || t.Union?) && i < |t.fields|
  {
    assert [Element][1..] == [] && [Payload][1..] == [];
    forall i: nat ensures Component(t, [Field(i)]).Some? <==> (t.Struct? || t.Union?) && i < |t.fields| {
      assert [Field(i)][1..] == [];
    }
  }

  ghost predicate Offends(t: Type, path: seq<Step>) {
    Component(t, path).Some? && Offence(Component(t, path).value).Some?
  }

  /** In the order of declaration, outer before inner. */
  predicate Earlier(p: seq<Step>, q: seq<Step>)
    decreases |p|
  {
    if q == [] then false
    else if p == [] then true
    else if p[0] == q[0] then Earlier(p[1..], q[1..])
    else p[0].Field? && q[0].Field? && p[0].i < q[0].i
  }

  /** The verdict is the first offending component there is, or that there is none. */
  ghost predicate Decides(t: Type, v: Verdict) {
    match v
    case Accepted => forall p: seq<Step> :: !Offends(t, p)
    case Refused(path, reason) =>
      && Offends(t, path) && Offence(Component(t, path).value) == Some(reason)
      && forall p: seq<Step> :: Offends(t, p) ==> !Earlier(p, path)
  }

  /** The one component a type of one part is made of. */
  predicate Holds(t: Type, step: Step, child: Type) {
    match t
    case Array(_, c) => step == Element && child == c
    case Vector(_, c) => step == Element && child == c
    case Optional(c) => step == Payload && child == c
    case _ => false
  }

  predicate HasField(t: Type, step: Step, child: Type) {
    (t.Struct? || t.Union?) && step.Field? && step.i < |t.fields| && child == t.fields[step.i].of
  }

  lemma OffendsInside(t: Type, step: Step, child: Type)
    requires Holds(t, step, child)
    ensures forall p: seq<Step> :: Offends(t, p) <==> p != [] && p[0] == step && Offends(child, p[1..])
  {
  }

  lemma OffendsInField(t: Type)
    requires t.Struct? || (t.Union? && t.tagged)
    ensures forall p: seq<Step> ::
              Offends(t, p) <==> p != [] && p[0].Field? && p[0].i < |t.fields| && Offends(t.fields[p[0].i].of, p[1..])
  {
  }

  lemma UnderDecides(t: Type, step: Step, child: Type)
    requires Decides(child, EnsureFlat(child))
    requires Holds(t, step, child)
    ensures Decides(t, Under(step, EnsureFlat(child)))
  {
    hide Offends, Component, EnsureFlat;
    OffendsInside(t, step, child);
    var v := EnsureFlat(child);
    if v.Refused? {
      var path := [step] + v.path;
      assert path[1..] == v.path;
      assert Component(t, path) == Component(child, v.path) by { ComponentStep(t, step, child, v.path); }
    }
  }

  lemma ComponentStep(t: Type, step: Step, child: Type, path: seq<Step>)
    requires Holds(t, step, child) || HasField(t, step, child)
    ensures Component(t, [step] + path) == Component(child, path)
  {
    assert ([step] + path)[1..] == path;
  }

  /** What is decided of the fields from field `i` on. */
  ghost predicate DecidesFields(all: seq<Member>, i: nat, v: Verdict) {
    match v
    case Accepted => forall j: nat, p: seq<Step> | i <= j < |all| :: !Offends(all[j].of, p)
    case Refused(path, reason) =>
      && path != [] && path[0].Field? && i <= path[0].i < |all|
      && Decides(all[path[0].i].of, Refused(path[1..], reason))
      && forall j: nat, p: seq<Step> | i <= j < path[0].i :: !Offends(all[j].of, p)
  }

  lemma {:induction false} FieldsDecided(all: seq<Member>, i: nat, rest: seq<Member>)
    requires i <= |all| && rest == all[i..]
    ensures DecidesFields(all, i, EnsureFields(rest, i))
    decreases rest, 0
  {
    hide Offends, Component, EnsureFlat;
    if rest != [] {
      assert rest[0] == all[i] && rest[1..] == all[i + 1..];
      FlatDecided(rest[0].of);
      FieldsDecided(all, i + 1, rest[1..]);
      var v := EnsureFlat(rest[0].of);
      if v.Refused? { assert ([Field(i)] + v.path)[1..] == v.path; }
    }
  }

  lemma FieldsDecideAll(t: Type, v: Verdict)
    requires (t.Struct? || (t.Union? && t.tagged)) && DecidesFields(t.fields, 0, v)
    ensures Decides(t, v)
  {
    OffendsInField(t);
    if v.Refused? {
      ComponentStep(t, v.path[0], t.fields[v.path[0].i].of, v.path[1..]);
      assert v.path == [v.path[0]] + v.path[1..];
    }
  }

  /** A type is accepted exactly when no component at any depth offends, and a refused one names the
      first that does and why. */
  lemma {:induction false} FlatDecided(t: Type)
    ensures Decides(t, EnsureFlat(t))
    decreases t, 1
  {
    match t
    case Array(_, child) =>
      FlatDecided(child);
      UnderDecides(t, Element, child);
    case Vector(_, child) =>
      FlatDecided(child);
      UnderDecides(t, Element, child);
    case Optional(child) =>
      FlatDecided(child);
      UnderDecides(t, Payload, child);
    case Struct(fields) =>
      FieldsDecided(fields, 0, fields);
      FieldsDecideAll(t, EnsureFields(fields, 0));
    case Union(tagged, fields) =>
      if tagged {
        FieldsDecided(fields, 0, fields);
        FieldsDecideAll(t, EnsureFields(fields, 0));
      } else {
        OffendsItself(t);
      }
    case _ => OffendsItself(t);
  }

  lemma OffendsItself(t: Type)
    requires t.Number? || Offence(t).Some?
    ensures Offence(t).Some? ==> Decides(t, Refused([], Offence(t).value))
    ensures t.Number? ==> Decides(t, Accepted)
  {
  }

  // ---- the two shapes of a space ----

  const MAX_VALUE := 65535

  datatype Kind = FlatValue | ByteValue | NotFlat(path: seq<Step>, reason: Reason) | TooLarge

  /** `kindOf`; the size is the compiler's. */
  function KindOf(t: Type, size: nat): Kind {
    if t.ByteSlice? then ByteValue
    else
      match EnsureFlat(t)
      case Refused(path, reason) => NotFlat(path, reason)
      case Accepted => if size > MAX_VALUE then TooLarge else FlatValue
  }

  /** A value is kept flat exactly when nothing in it offends and its length fits sixteen bits; one
      that offends is never called too large instead. */
  lemma KindDecided(t: Type, size: nat)
    ensures KindOf(t, size).FlatValue? <==> (forall p: seq<Step> :: !Offends(t, p)) && size < 0x1_0000
    ensures KindOf(t, size).TooLarge? <==> (forall p: seq<Step> :: !Offends(t, p)) && size >= 0x1_0000
    ensures KindOf(t, size).NotFlat? ==> Decides(t, Refused(KindOf(t, size).path, KindOf(t, size).reason))
    ensures KindOf(t, size).ByteValue? <==> t.ByteSlice?
  {
    FlatDecided(t);
    if t.ByteSlice? { assert Offends(t, []); }
  }

  // ---- what the bytes mean ----

  /** What is at an address, in one state of memory. */
  type Heap = seq<byte> -> seq<byte>

  datatype Meaning =
    | Bits(bits: seq<byte>)
    | Parts(parts: seq<Meaning>)
    | Absent
    | Chosen(i: nat, part: Meaning)
    | Behind(target: seq<byte>)
    | Unknown

  function From(b: seq<byte>, at: nat): seq<byte> {
    if at <= |b| then b[at..] else []
  }

  function First(b: seq<byte>, n: nat): seq<byte> {
    if n <= |b| then b[..n] else b
  }

  /** A layout: parts one after another, an optional or a union behind one octet that says which. */
  function SizeOf(t: Type): nat
    decreases t
  {
    match t
    case Number(size) => size
    case Array(n, child) => n * SizeOf(child)
    case Vector(n, child) => n * SizeOf(child)
    case Optional(child) => 1 + SizeOf(child)
    case Struct(fields) => SizeOfFields(fields)
    case Union(_, fields) => 1 + SizeOfFields(fields)
    case Pointer => 8
    case ByteSlice => 16
    case Void => 0
    case Other => 0
  }

  function SizeOfFields(fields: seq<Member>): nat
    decreases fields
  {
    if fields == [] then 0 else SizeOf(fields[0].of) + SizeOfFields(fields[1..])
  }

  /** A value read from bytes, with the memory its pointers point into. */
  function Mean(t: Type, b: seq<byte>, heap: Heap): Meaning
    decreases t, 0
  {
    match t
    case Number(size) => Bits(First(b, size))
    case Array(n, child) => Parts(Elements(child, n, b, heap))
    case Vector(n, child) => Parts(Elements(child, n, b, heap))
    case Optional(child) => if b == [] || b[0] == 0 then Absent else Chosen(0, Mean(child, b[1..], heap))
    case Struct(fields) => Parts(MeanFields(fields, b, heap))
    case Union(tagged, fields) =>
      if !tagged || b == [] || b[0] >= |fields| then Unknown
      else Chosen(b[0], Mean(fields[b[0]].of, b[1..], heap))
    case Pointer => Behind(heap(First(b, 8)))
    case ByteSlice => Behind(heap(First(b, 16)))
    case Void => Unknown
    case Other => Unknown
  }

  function Elements(child: Type, n: nat, b: seq<byte>, heap: Heap): seq<Meaning>
    decreases child, n + 1
  {
    if n == 0 then [] else [Mean(child, b, heap)] + Elements(child, n - 1, From(b, SizeOf(child)), heap)
  }

  function MeanFields(fields: seq<Member>, b: seq<byte>, heap: Heap): seq<Meaning>
    decreases fields, 0
  {
    if fields == [] then []
    else [Mean(fields[0].of, b, heap)] + MeanFields(fields[1..], From(b, SizeOf(fields[0].of)), heap)
  }

  /** The bytes of an accepted type mean the same whatever has become of memory. */
  lemma {:induction false} AcceptedMeansTheSame(t: Type, b: seq<byte>, now: Heap, later: Heap)
    requires EnsureFlat(t).Accepted?
    ensures Mean(t, b, now) == Mean(t, b, later)
    decreases t, 0
  {
    match t
    case Array(n, child) => ElementsMeanTheSame(child, n, b, now, later);
    case Vector(n, child) => ElementsMeanTheSame(child, n, b, now, later);
    case Optional(child) => if b != [] { AcceptedMeansTheSame(child, b[1..], now, later); }
    case Struct(fields) => FieldsMeanTheSame(fields, 0, b, now, later);
    case Union(tagged, fields) =>
      if b != [] && b[0] < |fields| {
        FieldAccepted(fields, 0, b[0]);
        AcceptedMeansTheSame(fields[b[0]].of, b[1..], now, later);
      }
    case _ =>
  }

  lemma {:induction false} FieldAccepted(fields: seq<Member>, i: nat, k: nat)
    requires EnsureFields(fields, i).Accepted? && k < |fields|
    ensures EnsureFlat(fields[k].of).Accepted?
    decreases k
  {
    if k > 0 { FieldAccepted(fields[1..], i + 1, k - 1); }
  }

  lemma {:induction false} ElementsMeanTheSame(child: Type, n: nat, b: seq<byte>, now: Heap, later: Heap)
    requires EnsureFlat(child).Accepted?
    ensures Elements(child, n, b, now) == Elements(child, n, b, later)
    decreases child, n + 1
  {
    if n > 0 {
      AcceptedMeansTheSame(child, b, now, later);
      ElementsMeanTheSame(child, n - 1, From(b, SizeOf(child)), now, later);
    }
  }

  lemma {:induction false} FieldsMeanTheSame(fields: seq<Member>, i: nat, b: seq<byte>, now: Heap, later: Heap)
    requires EnsureFields(fields, i).Accepted?
    ensures MeanFields(fields, b, now) == MeanFields(fields, b, later)
    decreases fields, 0
  {
    if fields != [] {
      AcceptedMeansTheSame(fields[0].of, b, now, later);
      FieldsMeanTheSame(fields[1..], i + 1, From(b, SizeOf(fields[0].of)), now, later);
    }
  }

  /** The path goes through no empty array and no choice one octet cannot make: a value can have
      something there. */
  ghost predicate Live(t: Type, path: seq<Step>)
    decreases |path|
  {
    path == []
    || match (t, path[0])
       case (Array(n, child), Element) => n > 0 && Live(child, path[1..])
       case (Vector(n, child), Element) => n > 0 && Live(child, path[1..])
       case (Optional(child), Payload) => Live(child, path[1..])
       case (Struct(fields), Field(i)) => i < |fields| && Live(fields[i].of, path[1..])
       case (Union(tagged, fields), Field(i)) => tagged && i < |fields| && i < 256 && Live(fields[i].of, path[1..])
       case _ => false
  }

  lemma {:induction false} FieldMeant(fields: seq<Member>, i: nat, b: seq<byte>, heap: Heap)
    requires i < |fields|
    ensures var at := SizeOfFields(fields[..i]);
            |MeanFields(fields, b, heap)| == |fields| && MeanFields(fields, b, heap)[i] == Mean(fields[i].of, From(b, at), heap)
    decreases |fields|
  {
    var rest := From(b, SizeOf(fields[0].of));
    if i == 0 {
      MeanFieldsLength(fields, b, heap);
      assert From(b, 0) == b;
    } else {
      FieldMeant(fields[1..], i - 1, rest, heap);
      assert fields[1..][..i - 1] == fields[..i][1..];
      assert From(rest, SizeOfFields(fields[..i][1..])) == From(b, SizeOfFields(fields[..i]));
    }
  }

  lemma {:induction false} MeanFieldsLength(fields: seq<Member>, b: seq<byte>, heap: Heap)
    ensures |MeanFields(fields, b, heap)| == |fields|
    decreases |fields|
  {
    if fields != [] { MeanFieldsLength(fields[1..], From(b, SizeOf(fields[0].of)), heap); }
  }

  /** And a pointer, or a slice, is refused for a reason: where a value can have one, some bytes mean one thing
      now and another later. */
  lemma {:induction false} PointersChangeMeaning(t: Type, path: seq<Step>, address: seq<byte>, now: Heap, later: Heap)
    returns (b: seq<byte>)
    requires Live(t, path) && (Component(t, path) == Some(Pointer) || Component(t, path) == Some(ByteSlice))
    requires |address| == (if Component(t, path) == Some(Pointer) then 8 else 16) && now(address) != later(address)
    ensures Mean(t, b, now) != Mean(t, b, later)
    decreases |path|
  {
    if path == [] {
      assert First(address, |address|) == address;
      return address;
    }
    match t
    case Array(n, child) =>
      b := PointersChangeMeaning(child, path[1..], address, now, later);
      assert Elements(child, n, b, now)[0] != Elements(child, n, b, later)[0];
    case Vector(n, child) =>
      b := PointersChangeMeaning(child, path[1..], address, now, later);
      assert Elements(child, n, b, now)[0] != Elements(child, n, b, later)[0];
    case Optional(child) =>
      var inner := PointersChangeMeaning(child, path[1..], address, now, later);
      b := [1] + inner;
      assert b[1..] == inner;
    case Struct(fields) =>
      var i := path[0].i;
      var inner := PointersChangeMeaning(fields[i].of, path[1..], address, now, later);
      var at := SizeOfFields(fields[..i]);
      b := seq(at, _ => 0) + inner;
      assert From(b, at) == inner;
      FieldMeant(fields, i, b, now);
      FieldMeant(fields, i, b, later);
    case Union(tagged, fields) =>
      var i := path[0].i;
      var inner := PointersChangeMeaning(fields[i].of, path[1..], address, now, later);
      b := [i] + inner;
      assert b[1..] == inner;
  }

  // ---- in and out of the ring ----

  /** The value's bytes copied into the ring. */
  method Store(ring: array<byte>, at: nat, bytes: seq<byte>)
    requires at + |bytes| <= ring.Length
    modifies ring
    ensures ring[..] == old(ring[..at]) + bytes + old(ring[at + |bytes|..])
  {
    for i := 0 to |bytes|
      invariant forall k | 0 <= k < ring.Length :: ring[k] == if at <= k < at + i then bytes[k - at] else old(ring[k])
    {
      ring[at + i] := bytes[i];
    }
  }

  /** `fromBytes`: copied out of the ring, at any offset. */
  method FromBytes(ring: array<byte>, at: nat, size: nat) returns (bytes: seq<byte>)
    requires at + size <= ring.Length
    ensures bytes == ring[at..at + size]
  {
    var value := new byte[size](_ => 0);
    for i := 0 to size
      invariant forall k | 0 <= k < i :: value[k] == ring[at + k]
    {
      value[i] := ring[at + i];
    }
    bytes := value[..];
  }

  /** An accepted value put in the ring anywhere and read back, whatever has become of memory since,
      means what it meant. */
  method RoundTrip(ring: array<byte>, at: nat, t: Type, value: seq<byte>, ghost now: Heap, ghost later: Heap)
    returns (back: seq<byte>)
    requires EnsureFlat(t).Accepted? && at + |value| <= ring.Length
    modifies ring
    ensures back == value && Mean(t, back, later) == Mean(t, value, now)
    ensures ring[..at] == old(ring[..at]) && ring[at + |value|..] == old(ring[at + |value|..])
  {
    Store(ring, at, value);
    back := FromBytes(ring, at, |value|);
    assert ring[..][at..at + |value|] == value;
    AcceptedMeansTheSame(t, value, now, later);
  }
}
