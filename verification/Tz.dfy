/** Time zone names: zones, links to them, and the generated look-up (job/tzdata/refresh.py:91-100,
    132-158, 186-190). Lines come with the comment cut off and split at white space. */
module Tz {
  import opened Common

  type Line = seq<string>

  predicate IsZone(line: Line, name: string) {
    |line| >= 2 && line[0] == "Zone" && line[1] == name
  }

  predicate IsLink(line: Line, name: string) {
    |line| >= 3 && line[0] == "Link" && line[2] == name
  }

  /** The last link line of a name, if there is one. */
  ghost predicate LastLink(lines: seq<Line>, name: string, i: int) {
    0 <= i < |lines| && IsLink(lines[i], name) && forall j | i < j < |lines| :: !IsLink(lines[j], name)
  }

  ghost predicate Reads(lines: seq<Line>, zones: set<string>, links: map<string, string>) {
    && (forall z: string :: z in zones <==> exists i | 0 <= i < |lines| :: IsZone(lines[i], z))
    && (forall l: string :: l in links <==> exists i :: LastLink(lines, l, i))
    && (forall l: string, i: int | l in links && LastLink(lines, l, i) :: links[l] == lines[i][1])
  }

  /** What the lines name, one line after another. */
  function ZonesOf(lines: seq<Line>): set<string> {
    if lines == [] then {}
    else
      var line := lines[|lines| - 1];
      ZonesOf(lines[..|lines| - 1]) + if |line| >= 2 && line[0] == "Zone" then {line[1]} else {}
  }

  function LinksOf(lines: seq<Line>): map<string, string> {
    if lines == [] then map[]
    else
      var line, links := lines[|lines| - 1], LinksOf(lines[..|lines| - 1]);
      if |line| >= 3 && line[0] == "Link" then links[line[2] := line[1]] else links
  }

  /** Every zone is one some line names, and every link goes where the last line of its name says. */
  lemma {:induction false} LastLineCounts(lines: seq<Line>)
    ensures Reads(lines, ZonesOf(lines), LinksOf(lines))
  {
    if lines != [] {
      hide Reads;
      var most, line := lines[..|lines| - 1], lines[|lines| - 1];
      LastLineCounts(most);
      ReadsOn(most, line, ZonesOf(most), LinksOf(most));
      assert lines == most + [line];
      assert ZonesOf(most) + {} == ZonesOf(most);
    }
  }

  lemma ReadsOn(lines: seq<Line>, line: Line, zones: set<string>, links: map<string, string>)
    requires Reads(lines, zones, links)
    ensures Reads(lines + [line],
                  if |line| >= 2 && line[0] == "Zone" then zones + {line[1]} else zones,
                  if |line| >= 3 && line[0] == "Link" then links[line[2] := line[1]] else links)
  {
    var all := lines + [line];
    forall z: string
      ensures (exists i | 0 <= i < |all| :: IsZone(all[i], z)) <==>
              (exists i | 0 <= i < |lines| :: IsZone(lines[i], z)) || IsZone(line, z)
    {
      if i :| 0 <= i < |lines| && IsZone(lines[i], z) { assert all[i] == lines[i]; }
      assert all[|lines|] == line;
    }
    forall l: string, i: int
      ensures LastLink(all, l, i) <==> if IsLink(line, l) then i == |lines| else LastLink(lines, l, i)
    {
      assert all[|lines|] == line;
      if 0 <= i < |lines| {
        assert all[i] == lines[i];
        assert forall j | i < j < |lines| :: all[j] == lines[j];
      }
    }
    forall l: string ensures IsLink(line, l) ==> LastLink(all, l, |lines|) {}
    var links' := if |line| >= 3 && line[0] == "Link" then links[line[2] := line[1]] else links;
    forall l: string ensures l in links' <==> exists i :: LastLink(all, l, i) {
      if IsLink(line, l) {
        assert LastLink(all, l, |lines|);
      } else if i :| LastLink(lines, l, i) {
        assert LastLink(all, l, i);
      } else {
        assert forall i :: LastLink(all, l, i) ==> LastLink(lines, l, i);
      }
    }
    forall l: string, i: int | l in links' && LastLink(all, l, i) ensures links'[l] == all[i][1] {
      if !IsLink(line, l) { assert LastLink(lines, l, i); }
    }
  }

  /** `zones_and_links`: every zone named, and for each link the target its last line gives. */
  method ZonesAndLinks(lines: seq<Line>) returns (zones: set<string>, links: map<string, string>)
    ensures zones == ZonesOf(lines) && links == LinksOf(lines)
    ensures Reads(lines, zones, links)
  {
    zones, links := {}, map[];
    for k := 0 to |lines|
      invariant zones == ZonesOf(lines[..k]) && links == LinksOf(lines[..k])
    {
      var line := lines[k];
      assert lines[..k + 1][..k] == lines[..k];
      if |line| >= 2 && line[0] == "Zone" {
        zones := zones + {line[1]};
      } else if |line| >= 3 && line[0] == "Link" {
        links := links[line[2] := line[1]];
      }
    }
    assert lines[..|lines|] == lines;
    LastLineCounts(lines);
  }

  // ---- links ----

  /** The name `k` links on, while there are links to follow. */
  function Follow(links: map<string, string>, name: string, k: nat): Option<string> {
    if k == 0 then Some(name)
    else
      match Follow(links, name, k - 1)
      case None => None
      case Some(n) => if n in links then Some(links[n]) else None
  }

  /** `z` is the first zone on the way. */
  ghost predicate EndsIn(zones: set<string>, links: map<string, string>, name: string, k: nat, z: string) {
    z in zones && Follow(links, name, k) == Some(z) && Outside(zones, links, name, k)
  }

  /** No zone in the first `k` names. */
  ghost predicate Outside(zones: set<string>, links: map<string, string>, name: string, k: nat) {
    forall j: nat | j < k :: Follow(links, name, j).Some? && Follow(links, name, j).value !in zones
  }

  /** After `k` links the name is neither a zone nor a link. */
  ghost predicate Dangles(zones: set<string>, links: map<string, string>, name: string, k: nat) {
    Outside(zones, links, name, k + 1) && Follow(links, name, k + 1).None?
  }

  /** After `k` links the name is one already passed. */
  ghost predicate Loops(zones: set<string>, links: map<string, string>, name: string, k: nat) {
    Outside(zones, links, name, k + 1) && exists i: nat | i < k :: Follow(links, name, i) == Follow(links, name, k)
  }

  /** The chain ends in no zone. */
  ghost predicate Endless(zones: set<string>, links: map<string, string>, name: string, k: nat) {
    Dangles(zones, links, name, k) || Loops(zones, links, name, k)
  }

  lemma {:induction false} FollowStops(links: map<string, string>, name: string, k: nat, m: nat)
    requires k <= m && Follow(links, name, k).None?
    ensures Follow(links, name, m).None?
    decreases m - k
  {
    if k < m { FollowStops(links, name, k, m - 1); }
  }

  /** Once round a loop, every name to come is one already passed. */
  lemma {:induction false} LoopStays(links: map<string, string>, name: string, i: nat, k: nat, m: nat) returns (j: nat)
    requires i < k && Follow(links, name, i) == Follow(links, name, k)
    ensures j < k && Follow(links, name, m) == Follow(links, name, j)
    decreases m
  {
    if m < k {
      j := m;
    } else if m == k {
      j := i;
    } else {
      var before := LoopStays(links, name, i, k, m - 1);
      j := if before + 1 < k then before + 1 else i;
      assert Follow(links, name, before + 1) == Follow(links, name, m);
    }
  }

  /** A chain ends in one zone, or dangles, or loops: never two of them. */
  lemma OneEnd(zones: set<string>, links: map<string, string>, name: string, k: nat, z: string, m: nat)
    requires EndsIn(zones, links, name, k, z)
    ensures !Dangles(zones, links, name, m) && !Loops(zones, links, name, m)
    ensures forall y: string :: EndsIn(zones, links, name, m, y) ==> y == z && m == k
  {
    if Dangles(zones, links, name, m) {
      if k > m { FollowStops(links, name, m + 1, k); }
      assert false;
    }
    if Loops(zones, links, name, m) {
      var i: nat :| i < m && Follow(links, name, i) == Follow(links, name, m);
      var j := LoopStays(links, name, i, m, k);
      assert false;
    }
  }

  /** `seen` is the first `k` names, all different. */
  ghost predicate Passed(links: map<string, string>, start: string, k: nat, seen: set<string>) {
    && seen <= links.Keys && |seen| == k
    && forall n: string :: n in seen <==> Named(links, start, k, n)
  }

  /** `n` is among the first `k` names. */
  ghost predicate Named(links: map<string, string>, start: string, k: nat, n: string) {
    exists j: nat | j < k :: Follow(links, start, j) == Some(n)
  }

  lemma NamedStep(links: map<string, string>, start: string, k: nat, n: string)
    ensures Named(links, start, k + 1, n) <==> Named(links, start, k, n) || Follow(links, start, k) == Some(n)
  {
    hide Follow;
    if Named(links, start, k, n) {
      var j: nat :| j < k && Follow(links, start, j) == Some(n);
      assert j < k + 1;
    }
  }

  lemma PassesOn(zones: set<string>, links: map<string, string>, start: string, k: nat, seen: set<string>, name: string)
    requires Passed(links, start, k, seen) && Outside(zones, links, start, k) && Follow(links, start, k) == Some(name)
    requires name !in zones
    ensures name in seen || name !in links ==> Endless(zones, links, start, k)
    ensures name !in seen && name in links ==>
              && Passed(links, start, k + 1, seen + {name}) && Follow(links, start, k + 1) == Some(links[name])
              && Outside(zones, links, start, k + 1)
  {
    assert Follow(links, start, k + 1) == if name in links then Some(links[name]) else None;
    hide Follow;
    assert Outside(zones, links, start, k + 1);
    if name !in seen && name in links {
      forall n: string ensures n in seen + {name} <==> Named(links, start, k + 1, n) {
        NamedStep(links, start, k, n);
      }
    }
  }

  /** `canonical`: the zone a chain of links ends in, or nothing exactly when it dangles or loops. */
  method Canonical(zones: set<string>, links: map<string, string>, start: string) returns (r: Option<string>)
    ensures r.Some? ==> exists k: nat :: k <= |links| && EndsIn(zones, links, start, k, r.value)
    ensures r.None? ==> exists k: nat :: k <= |links| && Endless(zones, links, start, k)
  {
    var seen: set<string>, name := {}, start;
    ghost var k: nat := 0;
    NonePassed(zones, links, start);
    hide Follow, Outside, EndsIn, Endless, Passed;
    while name !in zones
      invariant Follow(links, start, k) == Some(name) && Outside(zones, links, start, k)
      invariant Passed(links, start, k, seen)
      decreases links.Keys - seen
    {
      PassesOn(zones, links, start, k, seen, name);
      PassedBounds(links, start, k, seen);
      if name in seen || name !in links {
        return None;
      }
      seen := seen + {name};
      name := links[name];
      k := k + 1;
    }
    PassedBounds(links, start, k, seen);
    assert EndsIn(zones, links, start, k, name) by { ZoneEnds(zones, links, start, k, name); }
    return Some(name);
  }

  lemma NonePassed(zones: set<string>, links: map<string, string>, start: string)
    ensures Follow(links, start, 0) == Some(start) && Outside(zones, links, start, 0) && Passed(links, start, 0, {})
  {
  }

  lemma ZoneEnds(zones: set<string>, links: map<string, string>, start: string, k: nat, name: string)
    requires Follow(links, start, k) == Some(name) && Outside(zones, links, start, k) && name in zones
    ensures EndsIn(zones, links, start, k, name)
  {
  }

  lemma PassedBounds(links: map<string, string>, start: string, k: nat, seen: set<string>)
    requires Passed(links, start, k, seen)
    ensures seen <= links.Keys && k <= |links|
  {
    SubsetSize(seen, links.Keys);
    assert |links| == |links.Keys|;
  }

  // ---- the table ----

  ghost predicate Resolves(zones: set<string>, links: map<string, string>, name: string, z: string) {
    exists k: nat :: EndsIn(zones, links, name, k, z)
  }

  ghost predicate AllResolve(zones: set<string>, links: map<string, string>) {
    forall l <- links :: exists z :: Resolves(zones, links, l, z)
  }

  /** The table has these names, each at the zone its chain ends in. */
  ghost predicate Covers(table: map<string, string>, names: set<string>, zones: set<string>, links: map<string, string>) {
    table.Keys == names && forall n <- table :: table[n] in zones && Resolves(zones, links, n, table[n])
  }

  ghost predicate Tabulates(table: map<string, string>, zones: set<string>, links: map<string, string>) {
    Covers(table, zones + links.Keys, zones, links)
  }

  lemma CoversOneMore(table: map<string, string>, names: set<string>, zones: set<string>, links: map<string, string>,
                      n: string, k: nat, z: string)
    requires Covers(table, names, zones, links) && EndsIn(zones, links, n, k, z)
    ensures Covers(table[n := z], names + {n}, zones, links)
  {
  }

  lemma NoZone(zones: set<string>, links: map<string, string>, name: string, k: nat)
    requires Endless(zones, links, name, k)
    ensures forall z: string :: !Resolves(zones, links, name, z)
    ensures name in links ==> !AllResolve(zones, links)
  {
    forall z: string, m: nat ensures !EndsIn(zones, links, name, m, z) {
      if EndsIn(zones, links, name, m, z) { OneEnd(zones, links, name, m, z, k); }
    }
  }

  lemma ZonesCovered(zones: set<string>, links: map<string, string>)
    ensures Covers(map z | z in zones :: z, zones, zones, links)
  {
    forall z <- zones ensures Resolves(zones, links, z, z) {
      assert EndsIn(zones, links, z, 0, z);
    }
  }

  lemma AllTabulated(table: map<string, string>, zones: set<string>, links: map<string, string>)
    requires Tabulates(table, zones, links)
    ensures AllResolve(zones, links)
  {
    hide Resolves;
    assert forall l <- links :: l in table && Resolves(zones, links, l, table[l]);
  }

  /** Each name to its zone: every zone to itself and every link to where its chain ends; nothing
      when some link has no end. */
  method Table(zones: set<string>, links: map<string, string>) returns (r: Option<map<string, string>>)
    ensures r.Some? <==> AllResolve(zones, links)
    ensures r.Some? ==> Tabulates(r.value, zones, links)
  {
    hide Endless, EndsIn, Covers, AllResolve;
    var table := map z | z in zones :: z;
    ZonesCovered(zones, links);
    var rest := links.Keys;
    ghost var names := zones;
    while rest != {}
      invariant rest <= links.Keys && names + rest == zones + links.Keys && Covers(table, names, zones, links)
    {
      var l :| l in rest;
      var found := Canonical(zones, links, l);
      if found.None? {
        ghost var k: nat :| k <= |links| && Endless(zones, links, l, k);
        NoZone(zones, links, l, k);
        return None;
      }
      ghost var k: nat :| k <= |links| && EndsIn(zones, links, l, k, found.value);
      CoversOneMore(table, names, zones, links, l, k, found.value);
      table := table[l := found.value];
      rest, names := rest - {l}, names + {l};
    }
    assert names == zones + links.Keys;
    AllTabulated(table, zones, links);
    return Some(table);
  }

  // ---- the refresh ----

  datatype Output = Output(files: map<string, seq<int>>, names: seq<string>, table: map<string, string>)

  /** The generated `lookup`: the first line whose name it is answers the file it embeds. */
  method Lookup(out: Output, name: string) returns (r: Option<seq<int>>)
    requires forall n <- out.names :: n in out.table && out.table[n] in out.files
    ensures r == if name in out.names then Some(out.files[out.table[name]]) else None
  {
    for i := 0 to |out.names|
      invariant name !in out.names[..i]
    {
      assert out.names[i] in out.names;
      if out.names[i] == name {
        return Some(out.files[out.table[out.names[i]]]);
      }
    }
    assert out.names[..|out.names|] == out.names;
    return None;
  }

  /** The names in some order; the source puts them in byte order. */
  method Listing(names: set<string>) returns (s: seq<string>)
    ensures |s| == |names| && forall n: string :: n in s <==> n in names
  {
    s := [];
    var rest := names;
    while rest != {}
      invariant rest <= names && |s| + |rest| == |names| && forall n: string :: n in s <==> n in names - rest
    {
      var n :| n in rest;
      s, rest := s + [n], rest - {n};
    }
  }

  /** The refresh from the lines read and the files compiled to what is written: one file a zone
      and none a link, a name for every zone and link, and each name's look-up the file of the zone
      it is or links to. */
  method Refresh(lines: seq<Line>, built: map<string, seq<int>>) returns (r: Option<Output>)
    ensures r.Some? <==> ZonesOf(lines) <= built.Keys && AllResolve(ZonesOf(lines), LinksOf(lines))
    ensures r.Some? ==> Complete(r.value, ZonesOf(lines), LinksOf(lines), built)
  {
    hide Reads, Resolves, AllResolve, Tabulates, Complete;
    var zones, links := ZonesAndLinks(lines);
    if !(zones <= built.Keys) { return None; }
    var files := map n | n in zones :: built[n];
    var table := Table(zones, links);
    if table.None? { return None; }
    var names := Listing(table.value.Keys);
    Completes(files, names, table.value, zones, links, built);
    return Some(Output(files, names, table.value));
  }

  lemma Completes(files: map<string, seq<int>>, names: seq<string>, table: map<string, string>,
                  zones: set<string>, links: map<string, string>, built: map<string, seq<int>>)
    requires Tabulates(table, zones, links) && (forall n: string :: n in names <==> n in table.Keys)
    requires files.Keys == zones <= built.Keys && forall z <- zones :: files[z] == built[z]
    ensures Complete(Output(files, names, table), zones, links, built)
  {
    hide Resolves;
  }

  ghost predicate Complete(out: Output, zones: set<string>, links: map<string, string>, built: map<string, seq<int>>) {
    && out.files.Keys == zones && (forall z <- zones :: z in built && out.files[z] == built[z])
    && (forall n: string :: n in out.names <==> n in zones || n in links)
    && (forall n <- out.names :: n in out.table && out.table[n] in zones && Resolves(zones, links, n, out.table[n]))
  }

  /** What a program that names a zone or a link gets: the bytes compiled for the one zone its
      chain ends in. */
  method LookupAfterRefresh(out: Output, name: string, ghost zones: set<string>, ghost links: map<string, string>,
                            ghost built: map<string, seq<int>>) returns (r: Option<seq<int>>)
    requires Complete(out, zones, links, built)
    ensures r.Some? <==> name in zones || name in links
    ensures r.Some? ==> exists z :: Resolves(zones, links, name, z) && z in built && r.value == built[z]
  {
    r := Lookup(out, name);
    if name in out.names {
      assert Resolves(zones, links, name, out.table[name]);
    }
  }
}
