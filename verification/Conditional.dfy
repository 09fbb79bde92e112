/** Collection validators of backend/app/core/conditional.py: (count, max stamp) stands in for the
    contents of a whole filtered collection, and If-None-Match is compared weakly (sections 2.3.2 and
    3.2 of RFC 7232). Stamps are the microsecond values the tag carries. */
module Conditional {
  import opened Options
  import opened DecimalText

  type Id = nat
  type Stamp = nat

  datatype Row = Row(stamp: Stamp, content: string)
  type Table = map<Id, Row>
  type Filter = (Id, string) -> bool

  // ---- The validator ----------------------------------------------------------------------

  function Collection(t: Table, p: Filter): Table {
    map id | id in t && p(id, t[id].content) :: t[id]
  }

  /** m is the newest stamp of c. */
  ghost predicate IsNewest(c: Table, m: Stamp) {
    (exists id :: id in c && c[id].stamp == m) && forall id :: id in c ==> c[id].stamp <= m
  }

  lemma {:induction false} NewestExists(c: Table)
    requires c != map[]
    ensures exists m :: IsNewest(c, m)
    decreases |c|
  {
    var x :| x in c;
    var d := c - {x};
    if d == map[] {
      assert c.Keys == d.Keys + {x};
      assert forall id :: id in c ==> id in c.Keys;
      assert IsNewest(c, c[x].stamp);
    } else {
      NewestExists(d);
      var m :| IsNewest(d, m);
      var k :| k in d && d[k].stamp == m;
      var top := if c[x].stamp > m then x else k;
      forall id | id in c ensures c[id].stamp <= c[top].stamp {
        if id != x { assert id in d; }
      }
      assert IsNewest(c, c[top].stamp);
    }
  }

  datatype Validator = Validator(count: nat, newest: Option<Stamp>)

  /** SELECT COUNT(id), MAX(updated_at) over the filtered collection. */
  ghost function Validate(t: Table, p: Filter): (v: Validator)
    ensures v.count == |Collection(t, p)| && (v.newest.None? <==> v.count == 0)
    ensures v.newest.Some? ==> IsNewest(Collection(t, p), v.newest.value)
  {
    var c := Collection(t, p);
    if c == map[] then Validator(0, None) else
      NewestExists(c);
      var m :| IsNewest(c, m);
      Validator(|c|, Some(m))
  }

  // ---- Which changes the validator hides --------------------------------------------------

  /** Filter p sees a different collection and the same validator. */
  ghost predicate Hidden(t: Table, e: Table, p: Filter) {
    Validate(t, p) == Validate(e, p) && Collection(t, p) != Collection(e, p)
  }

  /** Row x of t is missing in e, or has another content there. */
  predicate OnlyIn(t: Table, e: Table, x: Id) {
    x in t && (x in e ==> t[x].content != e[x].content)
  }

  /** Row z has one content in both tables, whatever its stamps. */
  predicate InBoth(t: Table, e: Table, z: Id) {
    z in t && z in e && t[z].content == e[z].content
  }

  function Later(a: Stamp, b: Stamp): Stamp {
    if a < b then b else a
  }

  /** One row makes way for another with the same stamp. */
  predicate Swap(t: Table, e: Table, x: Id, y: Id) {
    OnlyIn(t, e, x) && OnlyIn(e, t, y) && t[x].stamp == e[y].stamp
  }

  /** One row makes way for another while a third holds the newest stamp up. */
  predicate SwapBeside(t: Table, e: Table, x: Id, y: Id, z: Id) {
    OnlyIn(t, e, x) && OnlyIn(e, t, y) && InBoth(t, e, z) &&
    Later(t[x].stamp, t[z].stamp) == Later(e[y].stamp, e[z].stamp)
  }

  /** A row is stamped anew without moving the newest stamp of the pair. */
  predicate Restamp(t: Table, e: Table, z: Id, w: Id) {
    z != w && InBoth(t, e, z) && InBoth(t, e, w) && (t[z].stamp != e[z].stamp || t[w].stamp != e[w].stamp) &&
    Later(t[z].stamp, t[w].stamp) == Later(e[z].stamp, e[w].stamp)
  }

  ghost predicate Hides(t: Table, e: Table) {
    (exists x, y :: Swap(t, e, x, y)) ||
    (exists x, y, z :: SwapBeside(t, e, x, y, z)) ||
    (exists z, w :: Restamp(t, e, z, w))
  }

  /** For any two tables: some filter hides their difference exactly when at most three rows do. No
      assumption on stamps. */
  lemma HiddenIffRowsHide(t: Table, e: Table)
    ensures (exists p: Filter :: Hidden(t, e, p)) <==> Hides(t, e)
  {
    if p: Filter :| Hidden(t, e, p) {
      HiddenShows(t, e, p);
    }
    if Hides(t, e) {
      HidesAFilter(t, e);
    }
  }

  lemma NewestRow(t: Table, p: Filter) returns (top: Id)
    requires Collection(t, p) != map[]
    ensures top in Collection(t, p) && Validate(t, p) == Validator(|Collection(t, p)|, Some(t[top].stamp))
    ensures forall id :: id in Collection(t, p) ==> t[id].stamp <= t[top].stamp
  {
    var c := Collection(t, p);
    var m := Validate(t, p).newest.value;
    assert IsNewest(c, m);
    top :| top in c && c[top].stamp == m;
  }

  lemma KeyCount(c: Table)
    ensures |c| == |c.Keys|
  {
  }

  lemma SubsetCount(a: set<Id>, b: set<Id>)
    requires a <= b
    ensures |a| == |b| <==> a == b
  {
    assert b == a + (b - a);
  }

  /** Equal counts: whatever t lost has a row of e to make up for it. */
  lemma Replaced(t: Table, e: Table, p: Filter, x: Id) returns (y: Id)
    requires |Collection(t, p)| == |Collection(e, p)|
    requires x in Collection(t, p) && OnlyIn(t, e, x)
    ensures y in Collection(e, p) && OnlyIn(e, t, y)
  {
    var c, d := Collection(t, p), Collection(e, p);
    if forall id :: id in d ==> !OnlyIn(e, t, id) {
      KeyCount(c);
      KeyCount(d);
      assert forall id :: id in d ==> id in c;
      SubsetCount(d.Keys, c.Keys);
      assert false;
    }
    y :| y in d && OnlyIn(e, t, y);
  }

  lemma HiddenShows(t: Table, e: Table, p: Filter)
    requires Hidden(t, e, p)
    ensures Hides(t, e)
  {
    var c, d := Collection(t, p), Collection(e, p);
    assert c != map[] && d != map[];
    var a := NewestRow(t, p);
    var b := NewestRow(e, p);
    if x :| x in c && OnlyIn(t, e, x) {
      var y := Replaced(t, e, p, x);
      SwapShows(t, e, p, a, b, x, y);
    } else if y :| y in d && OnlyIn(e, t, y) {
      var x := Replaced(e, t, p, y);
      SwapShows(t, e, p, a, b, x, y);
    } else {
      RestampShows(t, e, p, a, b);
    }
  }

  /** a and b carry the newest stamps of the two collections, x and y are replaced. */
  lemma SwapShows(t: Table, e: Table, p: Filter, a: Id, b: Id, x: Id, y: Id)
    requires a in Collection(t, p) && b in Collection(e, p) && t[a].stamp == e[b].stamp
    requires forall id :: id in Collection(t, p) ==> t[id].stamp <= t[a].stamp
    requires forall id :: id in Collection(e, p) ==> e[id].stamp <= e[b].stamp
    requires x in Collection(t, p) && OnlyIn(t, e, x) && y in Collection(e, p) && OnlyIn(e, t, y)
    ensures Hides(t, e)
  {
    if OnlyIn(t, e, a) {
      if OnlyIn(e, t, b) {
        assert Swap(t, e, a, b);
      } else {
        assert SwapBeside(t, e, a, y, b);
      }
    } else if OnlyIn(e, t, b) {
      assert SwapBeside(t, e, x, b, a);
    } else if e[a].stamp == t[a].stamp {
      assert SwapBeside(t, e, x, y, a);
    } else {
      assert Restamp(t, e, a, b);
    }
  }

  /** Both collections hold the same rows, some stamped anew. */
  lemma RestampShows(t: Table, e: Table, p: Filter, a: Id, b: Id)
    requires Collection(t, p) != Collection(e, p)
    requires a in Collection(t, p) && b in Collection(e, p) && t[a].stamp == e[b].stamp
    requires forall id :: id in Collection(t, p) ==> t[id].stamp <= t[a].stamp && InBoth(t, e, id)
    requires forall id :: id in Collection(e, p) ==> e[id].stamp <= e[b].stamp && InBoth(t, e, id)
    ensures Hides(t, e)
  {
    var c, d := Collection(t, p), Collection(e, p);
    assert c.Keys == d.Keys;
    if e[a].stamp != t[a].stamp {
      assert Restamp(t, e, a, b);
    } else {
      var w :| w in c && c[w] != d[w];
      assert Restamp(t, e, a, w);
    }
  }

  /** A filter that admits just the given rows. */
  function Picks(rows: set<(Id, string)>): Filter {
    (id, content) => (id, content) in rows
  }

  /** The collections a and b of one and the same filter have a validator each; these are equal when
      the collections have as many rows and the same newest stamp. */
  lemma SameValidator(t: Table, e: Table, p: Filter, a: Id, b: Id)
    requires a in Collection(t, p) && b in Collection(e, p) && t[a].stamp == e[b].stamp
    requires |Collection(t, p)| == |Collection(e, p)|
    requires forall id :: id in Collection(t, p) ==> t[id].stamp <= t[a].stamp
    requires forall id :: id in Collection(e, p) ==> e[id].stamp <= e[b].stamp
    ensures Validate(t, p) == Validate(e, p)
  {
    var x := NewestRow(t, p);
    var y := NewestRow(e, p);
  }

  lemma HidesAFilter(t: Table, e: Table)
    requires Hides(t, e)
    ensures exists p: Filter :: Hidden(t, e, p)
  {
    if x, y :| Swap(t, e, x, y) {
      SwapHidden(t, e, x, y);
    } else if x, y, z :| SwapBeside(t, e, x, y, z) {
      SwapBesideHidden(t, e, x, y, z);
    } else {
      var z, w :| Restamp(t, e, z, w);
      RestampHidden(t, e, z, w);
    }
  }

  lemma SwapHidden(t: Table, e: Table, x: Id, y: Id)
    requires Swap(t, e, x, y)
    ensures exists p: Filter :: Hidden(t, e, p)
  {
    var p := Picks({(x, t[x].content), (y, e[y].content)});
    assert Collection(t, p) == map[x := t[x]] && Collection(e, p) == map[y := e[y]];
    SameValidator(t, e, p, x, y);
    assert Hidden(t, e, p);
  }

  lemma SwapBesideHidden(t: Table, e: Table, x: Id, y: Id, z: Id)
    requires SwapBeside(t, e, x, y, z)
    ensures exists p: Filter :: Hidden(t, e, p)
  {
    var p := Picks({(x, t[x].content), (y, e[y].content), (z, t[z].content)});
    assert Collection(t, p) == map[x := t[x], z := t[z]];
    assert Collection(e, p) == map[y := e[y], z := e[z]];
    var a := if t[x].stamp < t[z].stamp then z else x;
    var b := if e[y].stamp < e[z].stamp then z else y;
    SameValidator(t, e, p, a, b);
    assert x in Collection(t, p);
    assert Hidden(t, e, p);
  }

  lemma RestampHidden(t: Table, e: Table, z: Id, w: Id)
    requires Restamp(t, e, z, w)
    ensures exists p: Filter :: Hidden(t, e, p)
  {
    var p := Picks({(z, t[z].content), (w, t[w].content)});
    assert Collection(t, p) == map[z := t[z], w := t[w]];
    assert Collection(e, p) == map[z := e[z], w := e[w]];
    var a := if t[z].stamp < t[w].stamp then w else z;
    var b := if e[z].stamp < e[w].stamp then w else z;
    SameValidator(t, e, p, a, b);
    assert Collection(t, p)[z] == t[z] && Collection(t, p)[w] == t[w];
    assert Hidden(t, e, p);
  }

  // ---- Histories --------------------------------------------------------------------------

  datatype Write =
    | Insert(id: Id, content: string, stamp: Stamp)
    | Update(id: Id, content: string, stamp: Stamp)
    | Delete(id: Id)

  predicate Enabled(t: Table, w: Write) {
    w.id in t <==> !w.Insert?
  }

  function Apply(t: Table, w: Write): (e: Table)
    ensures w.Delete? ==> w.id !in e
    ensures !w.Delete? ==> w.id in e && e[w.id] == Row(w.stamp, w.content)
    ensures forall id :: id != w.id ==> (id in e <==> id in t) && (id in t ==> e[id] == t[id])
  {
    if w.Delete? then t - {w.id} else t[w.id := Row(w.stamp, w.content)]
  }

  predicate Legal(t: Table, writes: seq<Write>)
    decreases |writes|
  {
    writes == [] || (Enabled(t, writes[0]) && Legal(Apply(t, writes[0]), writes[1..]))
  }

  function After(t: Table, writes: seq<Write>): Table
    decreases |writes|
  {
    if writes == [] then t else After(Apply(t, writes[0]), writes[1..])
  }

  /** Every row was stamped by the clock's reading, every later write after it. Ties among the later
      writes are allowed. */
  predicate StampedAfter(t: Table, writes: seq<Write>, clock: Stamp) {
    (forall id :: id in t ==> t[id].stamp <= clock) &&
    forall i :: 0 <= i < |writes| && !writes[i].Delete? ==> writes[i].stamp > clock
  }

  /** A row no newer than the clock was there, unchanged, when the clock was read. */
  lemma {:induction false} OldRowsUnchanged(t: Table, writes: seq<Write>, clock: Stamp, id: Id)
    requires forall i :: 0 <= i < |writes| && !writes[i].Delete? ==> writes[i].stamp > clock
    ensures var e := After(t, writes); id in e && e[id].stamp <= clock ==> id in t && t[id] == e[id]
    decreases |writes|
  {
    if writes != [] {
      OldRowsUnchanged(Apply(t, writes[0]), writes[1..], clock, id);
    }
  }

  lemma LaterStampsHideNothing(t: Table, writes: seq<Write>, clock: Stamp)
    requires StampedAfter(t, writes, clock)
    ensures !Hides(t, After(t, writes))
  {
    var e := After(t, writes);
    forall id | id in e ensures (id in t && t[id] == e[id]) || e[id].stamp > clock {
      OldRowsUnchanged(t, writes, clock, id);
    }
    assert forall id :: id in t ==> t[id].stamp <= clock;
    assert forall x, y :: !Swap(t, e, x, y);
    assert forall x, y, z :: !SwapBeside(t, e, x, y, z);
    assert forall z, w :: !Restamp(t, e, z, w);
  }

  /** Where no three rows hide a change, equal (count, newest stamp) means an identical filtered
      collection, whatever the filter. */
  lemma ValidatorIsExact(t: Table, e: Table, p: Filter)
    requires !Hides(t, e)
    ensures Validate(t, p) == Validate(e, p) <==> Collection(t, p) == Collection(e, p)
  {
    if Hidden(t, e, p) {
      HiddenIffRowsHide(t, e);
    }
    if Collection(t, p) == Collection(e, p) && Collection(t, p) != map[] {
      var a := NewestRow(t, p);
      SameValidator(t, e, p, a, a);
    }
  }

  /** So it is over every history whose writes are stamped after the rows they found. */
  lemma HistoryValidator(t: Table, writes: seq<Write>, clock: Stamp, p: Filter)
    requires StampedAfter(t, writes, clock)
    ensures Validate(t, p) == Validate(After(t, writes), p) <==> Collection(t, p) == Collection(After(t, writes), p)
  {
    LaterStampsHideNothing(t, writes, clock);
    ValidatorIsExact(t, After(t, writes), p);
  }

  /** A delete and an insert that carries the stamp of the deleted row: the pair stands, the
      collection does not. */
  lemma EqualStampsHideAChange()
    ensures var t: Table, writes := map[1 := Row(5, "x")], [Delete(1), Insert(2, "y", 5)];
      Legal(t, writes) && Hidden(t, After(t, writes), (id, content) => true)
  {
    var t: Table, writes := map[1 := Row(5, "x")], [Delete(1), Insert(2, "y", 5)];
    var p: Filter := (id, content) => true;
    var e := After(t, writes);
    assert Apply(t, Delete(1)) == map[];
    assert writes[1..] == [Insert(2, "y", 5)] && writes[1..][1..] == [];
    assert After(map[], [Insert(2, "y", 5)]) == Apply(map[], Insert(2, "y", 5)) == map[2 := Row(5, "y")];
    assert Collection(t, p) == t && Collection(e, p) == e;
    SameValidator(t, e, p, 1, 2);
  }

  // ---- The tag ----------------------------------------------------------------------------

  /** Extra aggregate components, each "-value". */
  function Extras(extras: seq<nat>): string {
    if extras == [] then "" else "-" + Digits(extras[0]) + Extras(extras[1..])
  }

  function Newest(newest: Option<Stamp>): string {
    match newest
    case None => ""
    case Some(m) => Digits(m)
  }

  /** The part of the tag after W/. */
  function Opaque(v: Validator, extras: seq<nat>, tenant: string, fingerprint: string): string {
    "\"" +
    (Digits(v.count) + "-" +
     (Newest(v.newest) + (Extras(extras) + ("-" + (tenant + "-" + (fingerprint + "\""))))))
  }

  function Tag(v: Validator, extras: seq<nat>, tenant: string, fingerprint: string): string {
    "W/" + Opaque(v, extras, tenant, fingerprint)
  }

  lemma DigitsInjective(a: nat, b: nat)
    ensures Digits(a) == Digits(b) ==> a == b
    ensures '-' !in Digits(a) && ',' !in Digits(a) && Digits(a) != ""
  {
    DigitsRoundTrip(a);
    DigitsRoundTrip(b);
  }

  lemma {:induction false} ExtrasInjective(a: seq<nat>, b: seq<nat>, x: string, y: string)
    requires |a| == |b|
    requires Extras(a) + ("-" + x) == Extras(b) + ("-" + y)
    ensures a == b && x == y
  {
    if a == [] {
      assert Extras(a) + ("-" + x) == "-" + x && Extras(b) + ("-" + y) == "-" + y;
      assert ("-" + x)[1..] == x && ("-" + y)[1..] == y;
    } else {
      var s, u := Extras(a[1..]) + ("-" + x), Extras(b[1..]) + ("-" + y);
      ExtrasUnfold(a, x);
      ExtrasUnfold(b, y);
      FirstExtra(a[0], b[0], s, u);
      ExtrasInjective(a[1..], b[1..], x, y);
    }
  }

  lemma ExtrasUnfold(extras: seq<nat>, x: string)
    requires extras != []
    ensures var s := Extras(extras[1..]) + ("-" + x);
      s != "" && s[0] == '-' && Extras(extras) + ("-" + x) == "-" + (Digits(extras[0]) + s)
  {
    DashHead(extras[1..], x);
    Reassociate("-", Digits(extras[0]), Extras(extras[1..]), "-" + x);
  }

  lemma Reassociate(a: string, b: string, c: string, d: string)
    ensures a + b + c + d == a + (b + (c + d))
  {
  }

  lemma FirstExtra(a: nat, b: nat, s: string, u: string)
    requires s != "" && u != "" && s[0] == u[0] == '-'
    requires "-" + (Digits(a) + s) == "-" + (Digits(b) + u)
    ensures a == b && s == u
  {
    DigitsInjective(a, b);
    DigitsInjective(b, a);
    assert ("-" + (Digits(a) + s))[1..] == Digits(a) + s && ("-" + (Digits(b) + u))[1..] == Digits(b) + u;
    HeadBeforeDash(Digits(a), Digits(b), s, u);
  }

  lemma HeadBeforeDash(a: string, b: string, s: string, u: string)
    requires '-' !in a && '-' !in b && s != "" && u != "" && s[0] == u[0] == '-' && a + s == b + u
    ensures a == b && s == u
  {
    assert s == "-" + s[1..] && u == "-" + u[1..];
    assert a + s == a + "-" + s[1..] && b + u == b + "-" + u[1..];
    HeadUnique(a, b, '-', s[1..], u[1..]);
  }

  lemma DashHead(extras: seq<nat>, x: string)
    ensures var s := Extras(extras) + ("-" + x); s != "" && s[0] == '-'
  {
  }

  /** Equal tags carry equal validators, extra components, tenant marks and fingerprints. */
  lemma TagInjective(v1: Validator, e1: seq<nat>, t1: string, f1: string, v2: Validator, e2: seq<nat>, t2: string,
    f2: string)
    requires |e1| == |e2| && '-' !in t1 && '-' !in t2
    requires Opaque(v1, e1, t1, f1) == Opaque(v2, e2, t2, f2)
    ensures v1 == v2 && e1 == e2 && t1 == t2 && f1 == f2
  {
    var x1, x2 := t1 + "-" + (f1 + "\""), t2 + "-" + (f2 + "\"");
    var s1, s2 := Extras(e1) + ("-" + x1), Extras(e2) + ("-" + x2);
    var m1, m2 := Newest(v1.newest), Newest(v2.newest);
    assert Opaque(v1, e1, t1, f1)[1..] == Digits(v1.count) + "-" + (m1 + s1);
    assert Opaque(v2, e2, t2, f2)[1..] == Digits(v2.count) + "-" + (m2 + s2);
    DigitsInjective(v1.count, v2.count);
    DigitsInjective(v2.count, v1.count);
    HeadUnique(Digits(v1.count), Digits(v2.count), '-', m1 + s1, m2 + s2);
    NewestInjective(v1.newest, v2.newest);
    NewestInjective(v2.newest, v1.newest);
    DashHead(e1, x1);
    DashHead(e2, x2);
    HeadBeforeDash(m1, m2, s1, s2);
    ExtrasInjective(e1, e2, x1, x2);
    HeadUnique(t1, t2, '-', f1 + "\"", f2 + "\"");
    assert (f1 + "\"")[..|f1|] == f1 && (f2 + "\"")[..|f2|] == f2;
  }

  function AllDigitTexts(extras: seq<nat>): seq<string> {
    if extras == [] then [] else [Digits(extras[0])] + AllDigitTexts(extras[1..])
  }

  lemma SplitHead(a: string, s: string)
    requires '-' !in a && s != "" && s[0] == '-'
    ensures Split(a + s, '-') == [a] + Split(s[1..], '-')
  {
    SplitFirst(a, '-', s[1..]);
    assert a + "-" + s[1..] == a + s;
  }

  lemma {:induction false} ExtrasSplit(extras: seq<nat>, tail: string)
    ensures Extras(extras) + ("-" + tail) != ""
    ensures Split((Extras(extras) + ("-" + tail))[1..], '-') == AllDigitTexts(extras) + Split(tail, '-')
  {
    if extras == [] {
      assert (Extras(extras) + ("-" + tail))[1..] == tail;
    } else {
      var d, s := Digits(extras[0]), Extras(extras[1..]) + ("-" + tail);
      ExtrasUnfold(extras, tail);
      assert ("-" + (d + s))[1..] == d + s;
      DigitsInjective(extras[0], 0);
      SplitHead(d, s);
      ExtrasSplit(extras[1..], tail);
      Prefixed(d, AllDigitTexts(extras[1..]), Split(tail, '-'));
    }
  }

  lemma Prefixed(a: string, b: seq<string>, c: seq<string>)
    ensures [a] + (b + c) == [a] + b + c
  {
  }

  lemma TagText(v: Validator, extras: seq<nat>, tenant: string, fingerprint: string)
    ensures var s := Extras(extras) + ("-" + (tenant + "-" + fingerprint));
      Tag(v, extras, tenant, fingerprint) == "W/\"" + (Digits(v.count) + "-" + (Newest(v.newest) + s)) + "\""
  {
  }

  /** The tag's documented form: between the quotes after the weak marker stand count, newest stamp (empty
      for an empty collection), extra components, tenant mark and fingerprint, joined by hyphens. */
  lemma TagReadsBack(v: Validator, extras: seq<nat>, tenant: string, fingerprint: string)
    requires '-' !in tenant && '-' !in fingerprint
    ensures var tag := Tag(v, extras, tenant, fingerprint);
      && |tag| >= 4 && tag[..3] == "W/\"" && tag[|tag| - 1] == '"'
      && Split(tag[3..|tag| - 1], '-') ==
        [Digits(v.count), if v.newest.Some? then Digits(v.newest.value) else ""] + AllDigitTexts(extras) +
          [tenant, fingerprint]
  {
    var newest := if v.newest.Some? then Digits(v.newest.value) else "";
    var s := Extras(extras) + ("-" + (tenant + "-" + fingerprint));
    TagText(v, extras, tenant, fingerprint);
    Quoted(Digits(v.count) + "-" + (newest + s));
    DigitsInjective(v.count, 0);
    NewestInjective(v.newest, None);
    TextSplit(Digits(v.count), newest, extras, tenant, fingerprint);
  }

  lemma TextSplit(count: string, newest: string, extras: seq<nat>, tenant: string, fingerprint: string)
    requires '-' !in count && '-' !in newest && '-' !in tenant && '-' !in fingerprint
    ensures var s := Extras(extras) + ("-" + (tenant + "-" + fingerprint));
      Split(count + "-" + (newest + s), '-') == [count, newest] + AllDigitTexts(extras) + [tenant, fingerprint]
  {
    var tail := tenant + "-" + fingerprint;
    var s := Extras(extras) + ("-" + tail);
    DashHead(extras, tail);
    SplitFirst(count, '-', newest + s);
    SplitHead(newest, s);
    ExtrasSplit(extras, tail);
    TailSplit(tenant, fingerprint);
    Regroup(count, newest, AllDigitTexts(extras), [tenant, fingerprint]);
  }

  lemma TailSplit(tenant: string, fingerprint: string)
    requires '-' !in tenant && '-' !in fingerprint
    ensures Split(tenant + "-" + fingerprint, '-') == [tenant, fingerprint]
  {
    SplitLast(fingerprint, '-');
    SplitFirst(tenant, '-', fingerprint);
  }

  lemma Regroup(a: string, b: string, c: seq<string>, d: seq<string>)
    ensures [a] + ([b] + (c + d)) == [a, b] + c + d
  {
  }

  lemma Quoted(text: string)
    ensures var tag := "W/\"" + text + "\"";
      |tag| >= 4 && tag[..3] == "W/\"" && tag[|tag| - 1] == '"' && tag[3..|tag| - 1] == text
  {
  }

  lemma NewestInjective(a: Option<Stamp>, b: Option<Stamp>)
    ensures Newest(a) == Newest(b) ==> a == b
    ensures '-' !in Newest(a)
  {
    if a.Some? { DigitsInjective(a.value, 0); }
    if b.Some? { DigitsInjective(b.value, 0); }
    if a.Some? && b.Some? { DigitsInjective(a.value, b.value); }
  }

  // ---- If-None-Match ----------------------------------------------------------------------

  /** The whitespace of str.strip() among the characters a header can hold (Latin-1). */
  predicate IsSpace(c: char) {
    c == ' ' || '\t' <= c <= '\r' || '\U{1C}' <= c <= '\U{1F}' || c == '\U{85}' || c == '\U{A0}'
  }

  /** str.strip() */
  function Strip(s: string): string {
    if s != "" && IsSpace(s[0]) then Strip(s[1..])
    else if s != "" && IsSpace(s[|s| - 1]) then Strip(s[..|s| - 1])
    else s
  }

  function Normalize(raw: string): string {
    var s := Strip(raw);
    if |s| >= 2 && s[..2] == "W/" then s[2..] else s
  }

  function Candidates(parts: seq<string>): seq<string> {
    if parts == [] then [] else
      (if Strip(parts[0]) == "" then [] else [Strip(parts[0])]) + Candidates(parts[1..])
  }

  predicate CheckNotModified(header: Option<string>, etag: string) {
    header.Some? && header.value != "" && Matches(Candidates(Split(header.value, ',')), etag)
  }

  predicate Matches(candidates: seq<string>, etag: string) {
    "*" in candidates || exists i :: 0 <= i < |candidates| && Normalize(candidates[i]) == Normalize(etag)
  }

  /** The entries of a header, stripped. */
  function Listed(header: string): seq<string> {
    Candidates(Split(header, ','))
  }

  /** A weak tag as the server issues it: W/ followed by quoted, comma-free text. */
  predicate Issued(tag: string) {
    |tag| >= 4 && tag[..3] == "W/\"" && tag[|tag| - 1] == '"' && ',' !in tag
  }

  /** What str.strip() removes: space, tab, line feed, vertical tab, form feed, carriage return, the four
      separators 1C to 1F, next line, and no-break space. */
  const WHITESPACE := " \t\n\U{B}\U{C}\r\U{1C}\U{1D}\U{1E}\U{1F}\U{85}\U{A0}"

  predicate Spaces(s: string) {
    forall c :: c in s ==> c in WHITESPACE
  }

  predicate Trimmed(s: string) {
    s != "" ==> s[0] !in WHITESPACE && s[|s| - 1] !in WHITESPACE
  }

  lemma SpaceMeans(c: char)
    ensures IsSpace(c) <==> c in WHITESPACE
  {
    if IsSpace(c) {
      var w := WHITESPACE;
      assert w[0] == ' ' && w[1] == '\t' && w[2] == '\n' && w[3] == '\U{B}' && w[4] == '\U{C}' && w[5] == '\r';
      assert w[6] == '\U{1C}' && w[7] == '\U{1D}' && w[8] == '\U{1E}' && w[9] == '\U{1F}';
      assert w[10] == '\U{85}' && w[11] == '\U{A0}';
    }
  }

  /** Stripping removes whitespace of every kind from both ends, and nothing else. */
  lemma {:induction false} StripExact(left: string, core: string, right: string)
    requires Spaces(left) && Spaces(right) && Trimmed(core)
    ensures Strip(left + core + right) == core
    decreases |left| + |right|
  {
    var s := left + core + right;
    if left != "" {
      SpaceMeans(left[0]);
      StripExact(left[1..], core, right);
      assert s[1..] == left[1..] + core + right;
    } else if right != "" {
      var n := |right| - 1;
      if core == "" {
        SpaceMeans(right[0]);
        StripExact("", "", right[1..]);
        assert s[1..] == "" + "" + right[1..];
      } else {
        SpaceMeans(core[0]);
        SpaceMeans(right[n]);
        StripExact("", core, right[..n]);
        assert s[..|s| - 1] == "" + core + right[..n];
      }
    } else if core != "" {
      SpaceMeans(core[0]);
      SpaceMeans(core[|core| - 1]);
      assert s == core;
    }
  }

  lemma {:induction false} StripIdempotent(s: string)
    ensures Strip(Strip(s)) == Strip(s)
    decreases |s|
  {
    if s != "" && IsSpace(s[0]) {
      StripIdempotent(s[1..]);
    } else if s != "" && IsSpace(s[|s| - 1]) {
      StripIdempotent(s[..|s| - 1]);
    }
  }

  lemma {:induction false} ListedStripped(parts: seq<string>, i: nat)
    requires i < |Candidates(parts)|
    ensures Strip(Candidates(parts)[i]) == Candidates(parts)[i]
  {
    StripIdempotent(parts[0]);
    var head := if Strip(parts[0]) == "" then [] else [Strip(parts[0])];
    assert Candidates(parts) == head + Candidates(parts[1..]);
    if i >= |head| { ListedStripped(parts[1..], i - |head|); }
  }

  lemma IssuedNormal(tag: string)
    requires Issued(tag)
    ensures Strip(tag) == tag && Normalize(tag) == tag[2..] && tag == "W/" + tag[2..]
    ensures |tag[2..]| >= 2 && tag[2..][0] == '"'
  {
    assert tag[..3][..2] == tag[..2] && tag[..3][2] == tag[2];
  }

  /** A stripped entry weakly equals an issued tag when it is that tag, with or without its W/. */
  lemma WeaklyEqual(c: string, etag: string)
    requires Issued(etag) && Strip(c) == c
    ensures Normalize(c) == Normalize(etag) <==> c == etag || c == etag[2..]
  {
    IssuedNormal(etag);
    if |c| >= 2 && c[..2] == "W/" {
      assert c == "W/" + c[2..];
    }
  }

  /** The check, for any header text: true exactly when some entry is a star, the current tag, or the
      current tag without its weak marker. */
  lemma HeaderCheckExact(header: string, etag: string)
    requires Issued(etag)
    ensures CheckNotModified(Some(header), etag) <==>
      header != "" && ("*" in Listed(header) || etag in Listed(header) || etag[2..] in Listed(header))
  {
    var cs := Listed(header);
    forall i | 0 <= i < |cs| ensures Normalize(cs[i]) == Normalize(etag) <==> cs[i] == etag || cs[i] == etag[2..] {
      ListedStripped(Split(header, ','), i);
      WeaklyEqual(cs[i], etag);
    }
  }

  /** What a client sends between two commas: an entry, possibly empty, in whitespace of any kind. */
  datatype Piece = Piece(left: string, entry: string, right: string) {
    predicate Valid() {
      Spaces(left) && Spaces(right) && Trimmed(entry) && ',' !in entry
    }

    function Text(): string {
      left + entry + right
    }
  }

  function HeaderOf(pieces: seq<Piece>): string
    requires pieces != []
  {
    if |pieces| == 1 then pieces[0].Text() else pieces[0].Text() + "," + HeaderOf(pieces[1..])
  }

  /** The entries that are not empty. */
  function Entries(pieces: seq<Piece>): seq<string> {
    if pieces == [] then [] else
      (if pieces[0].entry == "" then [] else [pieces[0].entry]) + Entries(pieces[1..])
  }

  /** Listing a header recovers its non-empty entries in order, whatever whitespace surrounds them. */
  lemma {:induction false} ListedHeader(pieces: seq<Piece>)
    requires pieces != [] && forall i :: 0 <= i < |pieces| ==> pieces[i].Valid()
    ensures Listed(HeaderOf(pieces)) == Entries(pieces)
  {
    var p, text := pieces[0], pieces[0].Text();
    StripExact(p.left, p.entry, p.right);
    NoComma(p);
    if |pieces| == 1 {
      SplitLast(text, ',');
      assert [text][1..] == [] && pieces[1..] == [];
      assert Candidates([text]) == (if p.entry == "" then [] else [p.entry]) + Candidates([]);
    } else {
      var rest := HeaderOf(pieces[1..]);
      ListedHeader(pieces[1..]);
      SplitFirst(text, ',', rest);
      assert ([text] + Split(rest, ','))[1..] == Split(rest, ',');
    }
  }

  lemma NoComma(p: Piece)
    requires p.Valid()
    ensures ',' !in p.Text()
  {
    if ',' in p.left || ',' in p.right { SpaceMeans(','); }
  }

  lemma OneEntry(t: string)
    requires Issued(t)
    ensures Listed(t) == [t]
  {
    IssuedNormal(t);
    SplitLast(t, ',');
    assert [t][1..] == [];
    assert Candidates([t]) == [t] + Candidates([]);
  }

  lemma TagIsIssued(v: Validator, extras: seq<nat>, tenant: string, fingerprint: string)
    requires ',' !in tenant && ',' !in fingerprint
    ensures Issued(Tag(v, extras, tenant, fingerprint))
  {
    DigitsInjective(v.count, 0);
    if v.newest.Some? { DigitsInjective(v.newest.value, 0); }
    ExtrasNoComma(extras);
  }

  lemma {:induction false} ExtrasNoComma(extras: seq<nat>)
    ensures ',' !in Extras(extras)
  {
    if extras != [] {
      DigitsInjective(extras[0], 0);
      ExtrasNoComma(extras[1..]);
    }
  }

  // ---- What a 304 promises ----------------------------------------------------------------

  /** One tag a client may hold: the table when it was issued, and the request it answered. */
  datatype Held = Held(table: Table, fingerprint: string)

  ghost function HeldTag(h: Held, p: Filter, tenant: string): string {
    Tag(Validate(h.table, p), [], tenant, h.fingerprint)
  }

  ghost function HeldTags(held: seq<Held>, p: Filter, tenant: string): (tags: seq<string>)
    ensures |tags| == |held| && forall i :: 0 <= i < |held| ==> tags[i] == HeldTag(held[i], p, tenant)
  {
    seq(|held|, i requires 0 <= i < |held| => HeldTag(held[i], p, tenant))
  }

  /** The header lists the tags and nothing else, each with or without W/, in any order and spacing,
      repeated or not. */
  predicate Echoes(header: string, tags: seq<string>) {
    (forall c :: c in Listed(header) ==> Weak(c) in tags) &&
    (forall tag :: tag in tags ==> |tag| >= 2 && (tag in Listed(header) || tag[2..] in Listed(header)))
  }

  /** An entry with its weak marker put back. */
  function Weak(c: string): string {
    if |c| >= 2 && c[..2] == "W/" then c else "W/" + c
  }

  /** h answered this very page request over a collection identical to the present one. */
  predicate Current(h: Held, now: Table, p: Filter, fingerprint: string) {
    h.fingerprint == fingerprint && Collection(h.table, p) == Collection(now, p)
  }

  /** A header that echoes issued tags, in whatever form, passes for just these tags. */
  lemma EchoedCheck(header: string, tags: seq<string>, etag: string)
    requires Issued(etag) && (forall i :: 0 <= i < |tags| ==> Issued(tags[i])) && Echoes(header, tags)
    ensures CheckNotModified(Some(header), etag) <==> etag in tags
  {
    HeaderCheckExact(header, etag);
    EmptyHeader();
    EitherForm(etag);
  }

  lemma EitherForm(etag: string)
    requires Issued(etag)
    ensures Weak(etag) == etag && Weak(etag[2..]) == etag && !Issued(Weak("*"))
  {
    IssuedNormal(etag);
    assert Weak("*") == "W/*";
  }

  /** A 304 never hides a change: for a header that echoes held tags in any form, the check passes
      exactly when one of them was issued for this very page request over a collection identical to
      the present one. */
  lemma NotModifiedIsSound(now: Table, held: seq<Held>, header: string, p: Filter, tenant: string, fingerprint: string)
    requires ',' !in tenant && '-' !in tenant && ',' !in fingerprint
    requires forall i :: 0 <= i < |held| ==> ',' !in held[i].fingerprint && !Hides(held[i].table, now)
    requires Echoes(header, HeldTags(held, p, tenant))
    ensures CheckNotModified(Some(header), Tag(Validate(now, p), [], tenant, fingerprint)) <==>
      exists i :: 0 <= i < |held| && Current(held[i], now, p, fingerprint)
  {
    var etag := Tag(Validate(now, p), [], tenant, fingerprint);
    var tags := HeldTags(held, p, tenant);
    TagIsIssued(Validate(now, p), [], tenant, fingerprint);
    forall i | 0 <= i < |held|
      ensures Issued(tags[i]) && (tags[i] == etag <==> Current(held[i], now, p, fingerprint))
    {
      SameTagSameCollection(now, held[i], p, tenant, fingerprint);
    }
    EchoedCheck(header, tags, etag);
  }

  lemma EmptyHeader()
    ensures Listed("") == []
  {
    assert Split("", ',') == [""];
    assert [""][1..] == [];
  }

  /** And the condition is exact: 304s for a held tag are sound, whatever the collection's filter, if
      and only if no three rows of the two tables hide a change. */
  lemma SoundIffNothingHidden(now: Table, h: Held, tenant: string)
    requires ',' !in tenant && '-' !in tenant && ',' !in h.fingerprint
    ensures (forall p: Filter :: SoundFor(now, h, p, tenant)) <==> !Hides(h.table, now)
  {
    HiddenIffRowsHide(h.table, now);
    forall p: Filter ensures SoundFor(now, h, p, tenant) <==> !Hidden(h.table, now, p) {
      SoundUnlessHidden(now, h, p, tenant);
    }
  }

  lemma SoundUnlessHidden(now: Table, h: Held, p: Filter, tenant: string)
    requires ',' !in tenant && '-' !in tenant && ',' !in h.fingerprint
    ensures SoundFor(now, h, p, tenant) <==> !Hidden(h.table, now, p)
  {
    TagIsIssued(Validate(now, p), [], tenant, h.fingerprint);
    TagIsIssued(Validate(h.table, p), [], tenant, h.fingerprint);
    OneTagSent(HeldTag(h, p, tenant), Tag(Validate(now, p), [], tenant, h.fingerprint));
    SameTag(Validate(h.table, p), h.fingerprint, Validate(now, p), h.fingerprint, tenant);
  }

  lemma OneTagSent(tag: string, etag: string)
    requires Issued(tag) && Issued(etag)
    ensures CheckNotModified(Some(tag), etag) <==> tag == etag
  {
    IssuedNormal(tag);
    IssuedNormal(etag);
    OneEntry(tag);
    HeaderCheckExact(tag, etag);
  }

  /** Sending h's tag back draws a 304 only while the collection is the one it was issued for. */
  ghost predicate SoundFor(now: Table, h: Held, p: Filter, tenant: string) {
    CheckNotModified(Some(HeldTag(h, p, tenant)), Tag(Validate(now, p), [], tenant, h.fingerprint)) ==>
      Collection(h.table, p) == Collection(now, p)
  }

  lemma SameTag(v: Validator, f: string, w: Validator, g: string, tenant: string)
    requires '-' !in tenant
    ensures Tag(v, [], tenant, f) == Tag(w, [], tenant, g) <==> v == w && f == g
  {
    if Tag(v, [], tenant, f) == Tag(w, [], tenant, g) {
      assert Tag(v, [], tenant, f)[2..] == Opaque(v, [], tenant, f);
      assert Tag(w, [], tenant, g)[2..] == Opaque(w, [], tenant, g);
      TagInjective(v, [], tenant, f, w, [], tenant, g);
    }
  }

  lemma SameTagSameCollection(now: Table, h: Held, p: Filter, tenant: string, fingerprint: string)
    requires ',' !in tenant && '-' !in tenant && ',' !in h.fingerprint && !Hides(h.table, now)
    ensures Issued(HeldTag(h, p, tenant))
    ensures HeldTag(h, p, tenant) == Tag(Validate(now, p), [], tenant, fingerprint) <==>
      Current(h, now, p, fingerprint)
  {
    TagIsIssued(Validate(h.table, p), [], tenant, h.fingerprint);
    ValidatorIsExact(h.table, now, p);
    SameTag(Validate(h.table, p), h.fingerprint, Validate(now, p), fingerprint, tenant);
  }

  // ---- The epilogue -----------------------------------------------------------------------

  datatype Reply<T> = NotModified(etag: string) | Page(etag: string, body: T)

  /** conditional_response: no body goes out exactly when the header lists a star or the current tag in
      either form; otherwise the page does. */
  method ConditionalResponse<T>(header: Option<string>, etag: string, builder: () -> T) returns (r: Reply<T>)
    ensures r.NotModified? <==> CheckNotModified(header, etag)
    ensures Issued(etag) ==>
      (r.NotModified? <==>
       header.Some? && exists c :: c in Listed(header.value) && (c == "*" || c == etag || c == etag[2..]))
    ensures r == if r.NotModified? then NotModified(etag) else Page(etag, builder())
  {
    if header.Some? && Issued(etag) {
      HeaderCheckExact(header.value, etag);
      EmptyHeader();
    }
    if CheckNotModified(header, etag) {
      r := NotModified(etag);
    } else {
      r := Page(etag, builder());
    }
  }
}
