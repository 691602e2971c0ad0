/**
 algorithms/coverage.py: the coverage report with its three gates, and the gap register
 drawn from the same universe.
 */
module Gates {
  import opened Coverage
  import Order

  datatype Report = Report(
    score: real, denominator: nat, weightSum: int, perRegion: map<string, real>,
    gate1: bool, gate2: bool, gate3: bool, specified: nat, inferred: nat)

  /** round(x, 4): all that is used of it. */
  ghost predicate Rounds(round: real -> real) {
    round(0.0) == 0.0 && round(1.0) == 1.0 && forall x, y :: x <= y ==> round(x) <= round(y)
  }

  function RegionUniverse(u: seq<Concept>, region: string): seq<Concept> { Filter(u, InRegion(region)) }

  predicate FloorsMet(perRegion: map<string, real>, k: Config) {
    forall r :: r in perRegion ==> perRegion[r] >= k.regionFloor
  }

  function RegionScore(u: seq<Concept>, k: Config, round: real -> real, region: string): real {
    round(Score(RegionUniverse(u, region), k))
  }

  predicate Specified(c: Concept) { !c.inferred }

  method CountSpecified(u: seq<Concept>) returns (n: nat)
    ensures n == |Filter(u, Specified)| && n <= |u|
  {
    n := 0;
    for i := 0 to |u|
      invariant n + |Filter(u[i..], Specified)| == |Filter(u, Specified)| && n <= i
    {
      assert u[i..][1..] == u[i + 1..];
      if !u[i].inferred { n := n + 1; }
    }
  }

  method ScoreRegions(u: seq<Concept>, k: Config, round: real -> real) returns (perRegion: map<string, real>)
    ensures perRegion.Keys == {"us", "uk", "eu"} && forall g :: g in perRegion ==>
            perRegion[g] == RegionScore(u, k, round, g)
  {
    perRegion := map[];
    for i := 0 to |REGIONS|
      invariant perRegion.Keys == set j | 0 <= j < i :: REGIONS[j]
      invariant forall g :: g in perRegion ==> perRegion[g] == RegionScore(u, k, round, g)
    {
      var universe := RegionUniverse(u, REGIONS[i]);
      perRegion := perRegion[REGIONS[i] := round(Score(universe, k))];
    }
    assert REGIONS[0] == "us" && REGIONS[1] == "uk" && REGIONS[2] == "eu";
  }

  lemma NoneUnresolvedIff(u: seq<Concept>, k: Config)
    ensures UnresolvedOf(u, k) == [] <==> forall c :: c in u && c.weight == 5 ==> OwnWorth(c, k) >= 1.0
  {
    FilterExact(u, c => Unresolved(c, k));
    if UnresolvedOf(u, k) != [] { assert UnresolvedOf(u, k)[0] in UnresolvedOf(u, k); }
  }

  lemma NoneUnevidencedIff(u: seq<Concept>)
    ensures UnevidencedOf(u) == [] <==> forall c :: c in u ==> Backed(c)
  {
    FilterExact(u, c => !Evidenced(c));
    if UnevidencedOf(u) != [] { assert UnevidencedOf(u)[0] in UnevidencedOf(u); }
  }

  lemma FloorsMetIff(perRegion: map<string, real>, k: Config)
    requires perRegion.Keys == {"us", "uk", "eu"}
    ensures FloorsMet(perRegion, k) <==>
            perRegion["us"] >= k.regionFloor && perRegion["uk"] >= k.regionFloor && perRegion["eu"] >= k.regionFloor
  {
    assert "us" in perRegion && "uk" in perRegion && "eu" in perRegion;
    assert forall r :: r in perRegion ==> r in perRegion.Keys;
  }

  /** coverage(): gate 2 compares the unrounded domain score and the rounded region scores. */
  method CoverageReport(u: seq<Concept>, k: Config, round: real -> real) returns (r: Report)
    ensures r.score == round(Score(u, k)) && r.denominator == |u| && r.weightSum == Den(u)
    ensures r.perRegion.Keys == {"us", "uk", "eu"} && forall g :: g in r.perRegion ==>
            r.perRegion[g] == RegionScore(u, k, round, g)
    ensures r.gate1 <==> forall c :: c in u && c.weight == 5 ==> OwnWorth(c, k) >= 1.0
    ensures r.gate2 <==> Score(u, k) >= k.domainTarget && r.perRegion["us"] >= k.regionFloor &&
                         r.perRegion["uk"] >= k.regionFloor && r.perRegion["eu"] >= k.regionFloor
    ensures r.gate3 <==> forall c :: c in u ==> Backed(c)
    ensures r.specified == |Filter(u, Specified)| && r.specified + r.inferred == |u|
  {
    var score := Score(u, k);
    var unresolved, unevidenced, table := Classify(u, k);
    NoneUnresolvedIff(u, k);
    NoneUnevidencedIff(u);
    var perRegion := ScoreRegions(u, k, round);
    FloorsMetIff(perRegion, k);
    var specified := CountSpecified(u);
    r := Report(round(score), |u|, Den(u), perRegion, unresolved == [],
                score >= k.domainTarget && FloorsMet(perRegion, k), unevidenced == [], specified, |u| - specified);
  }

  /** A region nobody contributes to scores nothing, so with a positive floor it closes gate 2. */
  lemma EmptyRegionClosesGate2(u: seq<Concept>, k: Config, round: real -> real, region: string)
    requires Rounds(round) && k.regionFloor > 0.0
    requires forall c :: c in u ==> region !in c.regions
    ensures RegionScore(u, k, round, region) < k.regionFloor
  {
    FilterEmpty(u, InRegion(region));
  }

  // ---------------------------------------------------------------- the gap register

  datatype Reason = UnresolvedGap | UnevidencedGap | BelowFloor | Excluded

  datatype GapEntry = GapEntry(conceptId: string, weight: int, reason: Reason, regions: seq<string>)

  function EntryOf(c: Concept, reason: Reason): GapEntry {
    var regions := Order.SortedOf(c.regions);
    GapEntry(c.id, c.weight, reason, if regions == [] then ["us"] else regions)
  }

  function EntryWith(reason: Reason): Concept -> GapEntry { (c: Concept) => EntryOf(c, reason) }

  function FloorEntryFor(region: string): Concept -> GapEntry {
    (c: Concept) => GapEntry(c.id, c.weight, BelowFloor, [region])
  }

  function NonCoreIn(region: string): Concept -> bool { (c: Concept) => region in c.regions && !c.resolution.Core? }

  function NotIn(ids: set<string>): Concept -> bool { (c: Concept) => c.id !in ids }

  function IdsOf(cs: seq<Concept>): set<string> { set i | 0 <= i < |cs| :: cs[i].id }

  /** An entry for each concept, in order. */
  function Entries(cs: seq<Concept>, entry: Concept -> GapEntry): seq<GapEntry> {
    if cs == [] then [] else [entry(cs[0])] + Entries(cs[1..], entry)
  }

  function BelowFloorEntries(u: seq<Concept>, region: string): seq<GapEntry> {
    Entries(Filter(u, NonCoreIn(region)), FloorEntryFor(region))
  }

  function FloorEntries(u: seq<Concept>, perRegion: map<string, real>, k: Config, regions: seq<string>): seq<GapEntry> {
    if regions == [] then []
    else
      var front, last := regions[..|regions| - 1], regions[|regions| - 1];
      FloorEntries(u, perRegion, k, front) + if last in perRegion && perRegion[last] < k.regionFloor
          then BelowFloorEntries(u, last) else []
  }

  function ExcludedEntries(uris: seq<string>): seq<GapEntry> {
    seq(|uris|, i requires 0 <= i < |uris| => GapEntry(uris[i], 1, Excluded, REGIONS))
  }

  function UnresolvedEntries(u: seq<Concept>, k: Config): seq<GapEntry> {
    Entries(UnresolvedOf(u, k), EntryWith(UnresolvedGap))
  }

  function UnevidencedEntries(u: seq<Concept>, k: Config): seq<GapEntry> {
    Entries(Filter(UnevidencedOf(u), NotIn(IdsOf(UnresolvedOf(u, k)))), EntryWith(UnevidencedGap))
  }

  function Register(u: seq<Concept>, perRegion: map<string, real>, k: Config, uris: seq<string>): seq<GapEntry> {
    UnresolvedEntries(u, k) + UnevidencedEntries(u, k) + FloorEntries(u, perRegion, k, REGIONS) + ExcludedEntries(uris)
  }

  /** The shape of the register's loops: an entry for each concept that is kept. */
  method ListKept(cs: seq<Concept>, keep: Concept -> bool, entry: Concept -> GapEntry) returns (entries: seq<GapEntry>)
    ensures entries == Entries(Filter(cs, keep), entry)
  {
    entries := [];
    for i := 0 to |cs|
      invariant entries == Entries(Filter(cs[..i], keep), entry)
    {
      KeptAppend(cs, i, keep, entry);
      if keep(cs[i]) { entries := entries + [entry(cs[i])]; }
    }
    assert cs[..|cs|] == cs;
  }

  lemma KeptAppend(cs: seq<Concept>, i: nat, keep: Concept -> bool, entry: Concept -> GapEntry)
    requires i < |cs|
    ensures Entries(Filter(cs[..i + 1], keep), entry)
            == if keep(cs[i]) then Entries(Filter(cs[..i], keep), entry) + [entry(cs[i])]
                else Entries(Filter(cs[..i], keep), entry)
  {
    assert cs[..i + 1] == cs[..i] + [cs[i]];
    FilterAppend(cs[..i], cs[i], keep);
    if keep(cs[i]) { EntriesAppend(Filter(cs[..i], keep), cs[i], entry); }
  }

  lemma {:induction false} FilterAppend(cs: seq<Concept>, c: Concept, keep: Concept -> bool)
    ensures Filter(cs + [c], keep) == if keep(c) then Filter(cs, keep) + [c] else Filter(cs, keep)
  {
    if cs == [] {
      assert [] + [c] == [c] && [c][1..] == [];
    } else {
      var head, rest := if keep(cs[0]) then [cs[0]] else [], Filter(cs[1..], keep);
      assert (cs + [c])[1..] == cs[1..] + [c];
      FilterAppend(cs[1..], c, keep);
      assert head + (rest + [c]) == (head + rest) + [c];
    }
  }

  lemma {:induction false} EntriesAppend(cs: seq<Concept>, c: Concept, entry: Concept -> GapEntry)
    ensures Entries(cs + [c], entry) == Entries(cs, entry) + [entry(c)]
  {
    if cs == [] {
      assert [] + [c] == [c] && [c][1..] == [];
    } else {
      assert (cs + [c])[1..] == cs[1..] + [c];
      EntriesAppend(cs[1..], c, entry);
    }
  }

  lemma {:induction false} FilterAll(cs: seq<Concept>)
    ensures Filter(cs, _ => true) == cs
  {
    if cs != [] { FilterAll(cs[1..]); }
  }

  method ListFloors(u: seq<Concept>, perRegion: map<string, real>, k: Config, regions: seq<string>)
    returns (entries: seq<GapEntry>)
    requires forall r :: r in regions ==> r in perRegion
    ensures entries == FloorEntries(u, perRegion, k, regions)
  {
    entries := [];
    for i := 0 to |regions|
      invariant entries == FloorEntries(u, perRegion, k, regions[..i])
    {
      NextFloor(u, perRegion, k, regions, i);
      if perRegion[regions[i]] >= k.regionFloor { continue; }
      var more := ListKept(u, NonCoreIn(regions[i]), FloorEntryFor(regions[i]));
      entries := entries + more;
    }
    assert regions[..|regions|] == regions;
  }

  lemma NextFloor(u: seq<Concept>, perRegion: map<string, real>, k: Config, regions: seq<string>, i: nat)
    requires i < |regions| && regions[i] in perRegion
    ensures FloorEntries(u, perRegion, k, regions[..i + 1])
            == if perRegion[regions[i]] < k.regionFloor
                then FloorEntries(u, perRegion, k, regions[..i]) + BelowFloorEntries(u, regions[i])
               else FloorEntries(u, perRegion, k, regions[..i])
  {
    assert regions[..i + 1][..i] == regions[..i];
  }

  method GapRegister(u: seq<Concept>, report: Report, k: Config, uris: seq<string>) returns (entries: seq<GapEntry>)
    requires report.perRegion.Keys == {"us", "uk", "eu"}
    ensures entries == Register(u, report.perRegion, k, uris)
  {
    var unresolved, unevidenced, table := Classify(u, k);
    FilterAll(unresolved);
    entries := ListKept(unresolved, _ => true, EntryWith(UnresolvedGap));
    var more := ListKept(unevidenced, NotIn(IdsOf(unresolved)), EntryWith(UnevidencedGap));
    entries := entries + more;
    more := ListFloors(u, report.perRegion, k, REGIONS);
    entries := entries + more + ExcludedEntries(uris);
  }

  lemma {:induction false} EntryListed(cs: seq<Concept>, entry: Concept -> GapEntry, c: Concept)
    requires c in cs
    ensures entry(c) in Entries(cs, entry)
  {
    if cs[0] != c { EntryListed(cs[1..], entry, c); }
  }

  lemma {:induction false} EntryHasConcept(cs: seq<Concept>, entry: Concept -> GapEntry, e: GapEntry)
    requires e in Entries(cs, entry)
    ensures exists c :: c in cs && e == entry(c)
  {
    if e != entry(cs[0]) {
      EntryHasConcept(cs[1..], entry, e);
      var c :| c in cs[1..] && e == entry(c);
      assert c in cs;
    }
  }

  // --------------------------------------------------- the register and the gates agree

  predicate Classified(e: GapEntry) { e.reason.UnresolvedGap? || e.reason.UnevidencedGap? }

  /** How often the register names a concept as unresolved or unevidenced. */
  function Named(entries: seq<GapEntry>, id: string): nat {
    if entries == [] then 0
    else (if Classified(entries[0]) && entries[0].conceptId == id then 1 else 0) + Named(entries[1..], id)
  }

  lemma {:induction false} NamedConcat(a: seq<GapEntry>, b: seq<GapEntry>, id: string)
    ensures Named(a + b, id) == Named(a, id) + Named(b, id)
  {
    if a == [] {
      assert a + b == b;
    } else {
      assert (a + b)[1..] == a[1..] + b;
      NamedConcat(a[1..], b, id);
    }
  }

  lemma {:induction false} NamedZero(entries: seq<GapEntry>, id: string)
    requires forall i :: 0 <= i < |entries| ==> !Classified(entries[i]) || entries[i].conceptId != id
    ensures Named(entries, id) == 0
  {
    if entries != [] { NamedZero(entries[1..], id); }
  }

  ghost predicate Names(entry: Concept -> GapEntry) { forall c :: Classified(entry(c)) && entry(c).conceptId == c.id }

  ghost predicate Lists(cs: seq<Concept>, id: string) { exists j :: 0 <= j < |cs| && cs[j].id == id }

  /** Among concepts with unique ids, each listed one is named once. */
  lemma {:induction false} NamedOnce(cs: seq<Concept>, entry: Concept -> GapEntry, id: string)
    requires UniqueIds(cs) && Names(entry)
    ensures Named(Entries(cs, entry), id) == if Lists(cs, id) then 1 else 0
  {
    if cs != [] {
      NamedOnce(cs[1..], entry, id);
      assert Entries(cs, entry)[1..] == Entries(cs[1..], entry);
      ListsTail(cs, id);
    }
  }

  lemma ListsTail(cs: seq<Concept>, id: string)
    requires cs != [] && UniqueIds(cs)
    ensures Lists(cs, id) <==> cs[0].id == id || Lists(cs[1..], id)
    ensures cs[0].id == id ==> !Lists(cs[1..], id)
  {
    forall i | 0 <= i < |cs[1..]| ensures cs[1..][i] == cs[i + 1] {}
    if i :| 0 <= i < |cs| && cs[i].id == id {
      if i > 0 { assert cs[1..][i - 1].id == id; }
    }
  }

  lemma FilterHas(u: seq<Concept>, p: Concept -> bool, i: nat)
    requires i < |u| && UniqueIds(u)
    ensures Lists(Filter(u, p), u[i].id) <==> p(u[i])
  {
    FilterExact(u, p);
    var f := Filter(u, p);
    if p(u[i]) {
      assert u[i] in f;
      var j :| 0 <= j < |f| && f[j] == u[i];
      assert f[j].id == u[i].id;
    }
    if Lists(f, u[i].id) {
      var j :| 0 <= j < |f| && f[j].id == u[i].id;
      assert f[j] in f;
      SameConcept(u, i, f[j]);
    }
  }

  lemma SameConcept(u: seq<Concept>, i: nat, c: Concept)
    requires i < |u| && UniqueIds(u) && c in u && c.id == u[i].id
    ensures c == u[i]
  {
    var l :| 0 <= l < |u| && u[l] == c;
    assert l == i;
  }

  lemma {:induction false} FloorEntriesReason(u: seq<Concept>, perRegion: map<string, real>, k: Config,
        regions: seq<string>)
    ensures forall e :: e in FloorEntries(u, perRegion, k, regions) ==> e.reason.BelowFloor?
  {
    if regions != [] {
      var last := regions[|regions| - 1];
      FloorEntriesReason(u, perRegion, k, regions[..|regions| - 1]);
      forall e | e in BelowFloorEntries(u, last) ensures e.reason.BelowFloor? {
        EntryHasConcept(Filter(u, NonCoreIn(last)), FloorEntryFor(last), e);
      }
    }
  }

  /** The register names each unresolved or unevidenced concept exactly once, and no other. */
  lemma RegisterNamesEachOnce(u: seq<Concept>, perRegion: map<string, real>, k: Config, uris: seq<string>, i: nat)
    requires UniqueIds(u) && i < |u|
    ensures Named(Register(u, perRegion, k, uris), u[i].id) ==
            if (u[i].weight == 5 && OwnWorth(u[i], k) < 1.0) || !Backed(u[i]) then 1 else 0
  {
    var id := u[i].id;
    var floor, excluded := FloorEntries(u, perRegion, k, REGIONS), ExcludedEntries(uris);
    var first, second := UnresolvedEntries(u, k), UnevidencedEntries(u, k);
    FloorEntriesReason(u, perRegion, k, REGIONS);
    NamedZero(floor, id);
    NamedZero(excluded, id);
    NamedConcat(first + second + floor, excluded, id);
    NamedConcat(first + second, floor, id);
    NamedConcat(first, second, id);
    UnresolvedNamed(u, k, i);
    UnevidencedNamed(u, k, i);
  }

  lemma UnresolvedNamed(u: seq<Concept>, k: Config, i: nat)
    requires UniqueIds(u) && i < |u|
    ensures Named(UnresolvedEntries(u, k), u[i].id) == if Unresolved(u[i], k) then 1 else 0
  {
    FilterUnique(u, c => Unresolved(c, k));
    FilterHas(u, c => Unresolved(c, k), i);
    NamedOnce(UnresolvedOf(u, k), EntryWith(UnresolvedGap), u[i].id);
  }

  lemma UnevidencedNamed(u: seq<Concept>, k: Config, i: nat)
    requires UniqueIds(u) && i < |u|
    ensures Named(UnevidencedEntries(u, k), u[i].id) == if !Evidenced(u[i]) && !Unresolved(u[i], k) then 1 else 0
  {
    var unresolved, unevidenced := UnresolvedOf(u, k), UnevidencedOf(u);
    var keep := NotIn(IdsOf(unresolved));
    FilterUnique(u, c => !Evidenced(c));
    FilterUnique(unevidenced, keep);
    NamedOnce(Filter(unevidenced, keep), EntryWith(UnevidencedGap), u[i].id);
    FilterHas(u, c => Unresolved(c, k), i);
    NotInMeaning(unresolved, u[i]);
    FilterHas(u, c => !Evidenced(c), i);
    FilterExact(u, c => !Evidenced(c));
    SecondPass(u, unevidenced, keep, i);
  }

  lemma NotInMeaning(cs: seq<Concept>, c: Concept)
    ensures NotIn(IdsOf(cs))(c) <==> !Lists(cs, c.id)
  {
  }

  /** Filtering twice keeps exactly what both filters keep. */
  lemma SecondPass(u: seq<Concept>, listed: seq<Concept>, keep: Concept -> bool, i: nat)
    requires i < |u| && UniqueIds(u) && UniqueIds(listed) && forall c :: c in listed ==> c in u
    ensures Lists(Filter(listed, keep), u[i].id) <==> Lists(listed, u[i].id) && keep(u[i])
  {
    FilterExact(listed, keep);
    var f, id := Filter(listed, keep), u[i].id;
    if Lists(f, id) {
      var j :| 0 <= j < |f| && f[j].id == id;
      assert f[j] in f;
      var l :| 0 <= l < |listed| && listed[l] == f[j];
      SameConcept(u, i, f[j]);
    }
    if Lists(listed, id) && keep(u[i]) {
      var j :| 0 <= j < |listed| && listed[j].id == id;
      assert listed[j] in listed;
      SameConcept(u, i, listed[j]);
      FilterHas(listed, keep, j);
    }
  }

  lemma {:induction false} FilterEmpty(u: seq<Concept>, p: Concept -> bool)
    requires forall c :: c in u ==> !p(c)
    ensures Filter(u, p) == []
  {
    if u != [] { FilterEmpty(u[1..], p); }
  }

  /** No concept is named unresolved or unevidenced exactly when gates 1 and 3 pass. */
  lemma NothingNamedIffGatesPass(u: seq<Concept>, perRegion: map<string, real>, k: Config, uris: seq<string>)
    requires UniqueIds(u)
    ensures (forall e :: e in Register(u, perRegion, k, uris) ==> !Classified(e)) <==>
              forall c :: c in u ==> (c.weight == 5 ==> OwnWorth(c, k) >= 1.0) && Backed(c)
  {
    var register := Register(u, perRegion, k, uris);
    if forall e :: e in register ==> !Classified(e) {
      forall c | c in u ensures !Unresolved(c, k) && Evidenced(c) {
        var i :| 0 <= i < |u| && u[i] == c;
        RegisterNamesEachOnce(u, perRegion, k, uris, i);
        assert forall j :: 0 <= j < |register| ==> register[j] in register;
        NamedZero(register, c.id);
      }
    }
    if forall c :: c in u ==> !Unresolved(c, k) && Evidenced(c) {
      FilterEmpty(u, c => Unresolved(c, k));
      FilterEmpty(u, c => !Evidenced(c));
      FloorEntriesReason(u, perRegion, k, REGIONS);
      assert UnresolvedEntries(u, k) == [] && UnevidencedEntries(u, k) == [];
    }
  }

  // ----------------------------------------------------------- every entry accounted for

  /** The concept weighs 5 and is worth less than one. */
  ghost predicate Failing(c: Concept, k: Config) { c.weight == 5 && OwnWorth(c, k) < 1.0 }

  /** The regions an entry names: the concept's own in order, or us for a concept without any. */
  ghost predicate NamesRegions(e: GapEntry, c: Concept) {
    if c.regions == {} then e.regions == ["us"]
    else Order.StrictlySorted(e.regions) && forall r :: r in e.regions <==> r in c.regions
  }

  ghost predicate EntryFor(e: GapEntry, c: Concept, reason: Reason) {
    e.conceptId == c.id && e.weight == c.weight && e.reason == reason && NamesRegions(e, c)
  }

  lemma EntryOfTells(c: Concept, reason: Reason, e: GapEntry)
    ensures e == EntryOf(c, reason) <==> EntryFor(e, c, reason)
  {
    var regions := Order.SortedOf(c.regions);
    assert c.regions == {} <==> regions == [] by {
      if c.regions != {} {
        var r :| r in c.regions;
        assert r in regions;
      }
      if regions != [] { assert regions[0] in c.regions; }
    }
    if EntryFor(e, c, reason) && c.regions != {} { Order.SortedUnique(e.regions, regions); }
  }

  ghost predicate EntryAmong(cs: seq<Concept>, reason: Reason, e: GapEntry) {
    exists c :: c in cs && EntryFor(e, c, reason)
  }

  lemma AmongTail(cs: seq<Concept>, reason: Reason, e: GapEntry)
    requires cs != []
    ensures EntryAmong(cs, reason, e) <==> EntryFor(e, cs[0], reason) || EntryAmong(cs[1..], reason, e)
  {
    assert cs == [cs[0]] + cs[1..];
  }

  lemma {:induction false} EntryIff(cs: seq<Concept>, reason: Reason, e: GapEntry)
    ensures e in Entries(cs, EntryWith(reason)) <==> EntryAmong(cs, reason, e)
  {
    if cs != [] {
      EntryIff(cs[1..], reason, e);
      EntryOfTells(cs[0], reason, e);
      AmongTail(cs, reason, e);
      assert Entries(cs, EntryWith(reason)) == [EntryOf(cs[0], reason)] + Entries(cs[1..], EntryWith(reason));
    }
  }

  lemma {:induction false} FloorEntryIff(u: seq<Concept>, region: string, e: GapEntry)
    ensures e in BelowFloorEntries(u, region) <==>
            exists c :: c in u && region in c.regions && c.resolution != Core &&
                        e == GapEntry(c.id, c.weight, BelowFloor, [region])
  {
    var kept := Filter(u, NonCoreIn(region));
    FilterExact(u, NonCoreIn(region));
    if e in BelowFloorEntries(u, region) { EntryHasConcept(kept, FloorEntryFor(region), e); }
    forall c | c in kept ensures FloorEntryFor(region)(c) in BelowFloorEntries(u, region) {
      EntryListed(kept, FloorEntryFor(region), c);
    }
    forall c | c in u && region in c.regions && c.resolution != Core
               && e == GapEntry(c.id, c.weight, BelowFloor, [region])
      ensures c in kept && e == FloorEntryFor(region)(c)
    {
    }
  }

  ghost predicate BelowFloorEntry(u: seq<Concept>, perRegion: map<string, real>, k: Config, region: string,
        e: GapEntry)
  {
    && region in perRegion && perRegion[region] < k.regionFloor
    && exists c :: c in u && region in c.regions && c.resolution != Core &&
                   e == GapEntry(c.id, c.weight, BelowFloor, [region])
  }

  ghost predicate BelowSomeFloor(u: seq<Concept>, perRegion: map<string, real>, k: Config, regions: seq<string>,
        e: GapEntry)
  {
    exists region :: region in regions && BelowFloorEntry(u, perRegion, k, region, e)
  }

  lemma LastFloor(u: seq<Concept>, perRegion: map<string, real>, k: Config, front: seq<string>, last: string,
        e: GapEntry)
    ensures BelowSomeFloor(u, perRegion, k, front + [last], e) <==>
            BelowSomeFloor(u, perRegion, k, front, e) || BelowFloorEntry(u, perRegion, k, last, e)
  {
    forall region ensures region in front + [last] <==> region in front || region == last {}
  }

  lemma LastFloorEntries(u: seq<Concept>, perRegion: map<string, real>, k: Config, region: string, e: GapEntry)
    ensures region in perRegion && perRegion[region] < k.regionFloor && e in BelowFloorEntries(u, region) <==>
            BelowFloorEntry(u, perRegion, k, region, e)
  {
    FloorEntryIff(u, region, e);
  }

  lemma {:induction false} FloorEntriesIff(u: seq<Concept>, perRegion: map<string, real>, k: Config,
        regions: seq<string>, e: GapEntry)
    ensures e in FloorEntries(u, perRegion, k, regions) <==> BelowSomeFloor(u, perRegion, k, regions, e)
  {
    if regions != [] {
      var front, last := regions[..|regions| - 1], regions[|regions| - 1];
      FloorEntriesIff(u, perRegion, k, front, e);
      LastFloorEntries(u, perRegion, k, last, e);
      LastFloor(u, perRegion, k, front, last, e);
      assert regions == front + [last];
    }
  }

  lemma UnresolvedIff(u: seq<Concept>, k: Config, e: GapEntry)
    ensures e in UnresolvedEntries(u, k) <==> exists c :: c in u && Failing(c, k) && EntryFor(e, c, UnresolvedGap)
  {
    FilterExact(u, c => Unresolved(c, k));
    EntryIff(UnresolvedOf(u, k), UnresolvedGap, e);
  }

  lemma UnevidencedIff(u: seq<Concept>, k: Config, e: GapEntry)
    ensures e in UnevidencedEntries(u, k) <==>
            exists c :: c in u && !Backed(c) && NoneFailsAs(u, k, c.id) && EntryFor(e, c, UnevidencedGap)
  {
    var keep := NotIn(IdsOf(UnresolvedOf(u, k)));
    FilterExact(u, c => !Evidenced(c));
    FilterExact(UnevidencedOf(u), keep);
    forall c ensures keep(c) <==> NoneFailsAs(u, k, c.id) { KeptIff(u, k, c); }
    EntryIff(Filter(UnevidencedOf(u), keep), UnevidencedGap, e);
  }

  /** No failing concept has this id. */
  ghost predicate NoneFailsAs(u: seq<Concept>, k: Config, id: string) {
    forall d :: d in u && Failing(d, k) ==> d.id != id
  }

  lemma InOneOf(a: seq<GapEntry>, b: seq<GapEntry>, c: seq<GapEntry>, d: seq<GapEntry>, e: GapEntry)
    ensures e in a + b + c + d <==> e in a || e in b || e in c || e in d
  {
  }

  /** The register's entries: the failing concepts; the unbacked ones without the id of a failing
      one; in each region below the floor the concepts there that are not core; the exclusions. */
  lemma RegisterExact(u: seq<Concept>, perRegion: map<string, real>, k: Config, uris: seq<string>, e: GapEntry)
    ensures e in Register(u, perRegion, k, uris) <==>
            || (exists c :: c in u && Failing(c, k) && EntryFor(e, c, UnresolvedGap))
            || (exists c :: c in u && !Backed(c) && NoneFailsAs(u, k, c.id) && EntryFor(e, c, UnevidencedGap))
            || (exists region :: region in {"us", "uk", "eu"} && BelowFloorEntry(u, perRegion, k, region, e))
            || (exists uri :: uri in uris && e == GapEntry(uri, 1, Excluded, ["us", "uk", "eu"]))
  {
    UnresolvedIff(u, k, e);
    UnevidencedIff(u, k, e);
    ThreeRegions(u, perRegion, k, e);
    ExcludedIff(uris, e);
    InOneOf(UnresolvedEntries(u, k), UnevidencedEntries(u, k), FloorEntries(u, perRegion, k, REGIONS),
        ExcludedEntries(uris), e);
  }

  lemma KeptIff(u: seq<Concept>, k: Config, c: Concept)
    ensures NotIn(IdsOf(UnresolvedOf(u, k)))(c) <==> NoneFailsAs(u, k, c.id)
  {
    var unresolved := UnresolvedOf(u, k);
    FilterExact(u, c => Unresolved(c, k));
    forall d | d in u && Failing(d, k) ensures d.id in IdsOf(unresolved) {
      var i :| 0 <= i < |unresolved| && unresolved[i] == d;
      assert unresolved[i].id == d.id;
    }
    if c.id in IdsOf(unresolved) {
      var i :| 0 <= i < |unresolved| && unresolved[i].id == c.id;
      assert unresolved[i] in unresolved;
    }
  }

  lemma ThreeRegions(u: seq<Concept>, perRegion: map<string, real>, k: Config, e: GapEntry)
    ensures (exists region :: region in {"us", "uk", "eu"} && BelowFloorEntry(u, perRegion, k, region, e)) <==>
            e in FloorEntries(u, perRegion, k, REGIONS)
  {
    FloorEntriesIff(u, perRegion, k, REGIONS, e);
    assert REGIONS[0] == "us" && REGIONS[1] == "uk" && REGIONS[2] == "eu";
    forall region ensures region in REGIONS <==> region in {"us", "uk", "eu"} {}
  }

  lemma ExcludedIff(uris: seq<string>, e: GapEntry)
    ensures e in ExcludedEntries(uris) <==>
            exists uri :: uri in uris && e == GapEntry(uri, 1, Excluded, ["us", "uk", "eu"])
  {
    var entries := ExcludedEntries(uris);
    if e in entries {
      var i :| 0 <= i < |entries| && entries[i] == e;
      assert uris[i] in uris;
    }
    if uri :| uri in uris && e == GapEntry(uri, 1, Excluded, ["us", "uk", "eu"]) {
      var i :| 0 <= i < |uris| && uris[i] == uri;
      assert entries[i] == e;
    }
  }

  /** When gate 2 passes no entry is below a region floor. */
  lemma {:induction false} NoFloorEntriesWhenMet(u: seq<Concept>, perRegion: map<string, real>, k: Config,
        regions: seq<string>)
    requires FloorsMet(perRegion, k)
    ensures FloorEntries(u, perRegion, k, regions) == []
  {
    if regions != [] { NoFloorEntriesWhenMet(u, perRegion, k, regions[..|regions| - 1]); }
  }

  lemma {:induction false} EntriesReason(cs: seq<Concept>, reason: Reason)
    ensures forall e :: e in Entries(cs, EntryWith(reason)) ==> e.reason == reason
  {
    forall e | e in Entries(cs, EntryWith(reason))
      ensures e.reason == reason
    {
      EntryHasConcept(cs, EntryWith(reason), e);
    }
  }

  lemma Gate2MeansNoFloorEntry(u: seq<Concept>, perRegion: map<string, real>, k: Config, uris: seq<string>)
    requires FloorsMet(perRegion, k)
    ensures forall e :: e in Register(u, perRegion, k, uris) ==> !e.reason.BelowFloor?
  {
    NoFloorEntriesWhenMet(u, perRegion, k, REGIONS);
    EntriesReason(UnresolvedOf(u, k), UnresolvedGap);
    EntriesReason(Filter(UnevidencedOf(u), NotIn(IdsOf(UnresolvedOf(u, k)))), UnevidencedGap);
  }

  lemma {:induction false} FloorEntryPresent(u: seq<Concept>, perRegion: map<string, real>, k: Config,
        regions: seq<string>, region: string, c: Concept)
    requires region in regions && region in perRegion && perRegion[region] < k.regionFloor
    requires c in u && region in c.regions && !c.resolution.Core?
    ensures FloorEntryFor(region)(c) in FloorEntries(u, perRegion, k, regions)
  {
    if regions[|regions| - 1] == region {
      FilterExact(u, NonCoreIn(region));
      EntryListed(Filter(u, NonCoreIn(region)), FloorEntryFor(region), c);
    } else {
      FloorEntryPresent(u, perRegion, k, regions[..|regions| - 1], region, c);
    }
  }

  /** With core weight 1, a non-empty region below the floor has an entry that names one of its
      concepts and lists the region. */
  lemma BelowFloorRegionIsExplained(u: seq<Concept>, k: Config, round: real -> real, perRegion: map<string, real>,
        uris: seq<string>, region: string)
    requires Rounds(round) && ValidConfig(k) && k.core == 1.0 && UniqueIds(u) && Weighted(u)
    requires region in REGIONS && region in perRegion &&
             perRegion[region] == RegionScore(u, k, round, region) < k.regionFloor
    requires RegionUniverse(u, region) != []
    ensures exists c, e ::
              && c in u && region in c.regions
              && e in Register(u, perRegion, k, uris) && e.conceptId == c.id && region in e.regions
  {
    var c := WeakConcept(u, k, round, region);
    if !c.resolution.Core? {
      var e := FloorEntryFor(region)(c);
      FloorEntryPresent(u, perRegion, k, REGIONS, region, c);
      assert e in Register(u, perRegion, k, uris) && region in e.regions;
    } else {
      var e := UnevidencedIsListed(u, k, c);
      assert e in Register(u, perRegion, k, uris);
    }
  }

  /** A region below the floor has a concept that is not an evidenced core one. */
  lemma WeakConcept(u: seq<Concept>, k: Config, round: real -> real, region: string) returns (c: Concept)
    requires Rounds(round) && ValidConfig(k) && k.core == 1.0 && Weighted(u)
    requires RegionScore(u, k, round, region) < k.regionFloor && RegionUniverse(u, region) != []
    ensures c in u && region in c.regions && !(Evidenced(c) && c.resolution.Core?)
  {
    FilterExact(u, InRegion(region));
    var f := RegionUniverse(u, region);
    if forall c :: c in f ==> Evidenced(c) && c.resolution.Core? {
      FilterWeighted(u, u, InRegion(region));
      ScoreBetween(f, k, 1.0, 1.0);
    }
    c :| c in f && !(Evidenced(c) && c.resolution.Core?);
  }

  lemma UnevidencedIsListed(u: seq<Concept>, k: Config, c: Concept) returns (e: GapEntry)
    requires c in u && !Evidenced(c) && UniqueIds(u)
    ensures e in UnresolvedEntries(u, k) + UnevidencedEntries(u, k) && e.conceptId == c.id && forall r ::
            r in c.regions ==> r in e.regions
  {
    var unresolved, unevidenced := UnresolvedOf(u, k), UnevidencedOf(u);
    FilterExact(u, x => Unresolved(x, k));
    FilterExact(u, x => !Evidenced(x));
    if Unresolved(c, k) {
      e := EntryWith(UnresolvedGap)(c);
      EntryListed(unresolved, EntryWith(UnresolvedGap), c);
    } else {
      var keep := NotIn(IdsOf(unresolved));
      FilterExact(unevidenced, keep);
      var i :| 0 <= i < |u| && u[i] == c;
      FilterHas(u, x => Unresolved(x, k), i);
      NotInMeaning(unresolved, c);
      e := EntryWith(UnevidencedGap)(c);
      EntryListed(Filter(unevidenced, keep), EntryWith(UnevidencedGap), c);
    }
    assert forall r :: r in c.regions ==> r in Order.SortedOf(c.regions);
  }
}
