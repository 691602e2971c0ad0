/**
 gate/ledger.py's store and connectors/manifest.py's append loop: a run that caches each
 region's chain head and entry count refines one that re-reads the store for every entry,
 and any number of runs leaves every region's chain verified.
 */
module Manifest {
  import opened Wrappers
  import opened Ledger
  import opened EntryIds

  type Files = map<string, seq<Entry>>

  function EntriesOf(files: Files, region: string): seq<Entry> { if region in files then files[region] else [] }

  function HeadOf(files: Files, region: string): Option<string> {
    var entries := EntriesOf(files, region);
    if entries == [] then None else Some(entries[|entries| - 1].hash)
  }

  function Added(files: Files, e: Entry): Files {
    files[e.fields.region := EntriesOf(files, e.fields.region) + [e]]
  }

  /** What the gate decided about one kept artefact, before it is ledgered. */
  datatype Decision = Decision(region: string, artefactId: string, contentHash: string, labels: seq<string>,
        verdict: string, approver: Option<string>)

  datatype RunSettings = RunSettings(crypto: Crypto, key: string, at: string, policyVersion: int, lawfulBasis: string,
        runId: string)

  function EntryFor(s: RunSettings, d: Decision, entryId: string, prevHash: Option<string>): Entry {
    MakeEntry(s.crypto, s.key,
              Fields(entryId, s.at, d.region, d.artefactId, d.contentHash, d.verdict, s.policyVersion, s.lawfulBasis,
                  d.approver, s.runId), d.labels, prevHash)
  }

  /** The simple form: count the stored entries and read the stored head, every time. */
  function AppendAll(files: Files, s: RunSettings, decisions: seq<Decision>): Files
    decreases |decisions|
  {
    if decisions == [] then files
    else
      var d := decisions[0];
      AppendAll(Added(files, NextEntry(files, s, d)), s, decisions[1..])
  }

  function NextEntry(files: Files, s: RunSettings, d: Decision): Entry {
    EntryFor(s, d, EntryId(d.region, |EntriesOf(files, d.region)| + 1), HeadOf(files, d.region))
  }

  // ---------------------------------------------------------- what a run writes down

  /** The run's decisions on artefacts of one region, in their order. */
  function DecisionsFor(region: string, decisions: seq<Decision>): seq<Decision> {
    if decisions == [] then []
    else (if decisions[0].region == region then [decisions[0]] else []) + DecisionsFor(region, decisions[1..])
  }

  /** The entry says what was decided, about which artefact, under which policy, when and in which
      run. */
  ghost predicate Records(e: Entry, s: RunSettings, d: Decision) {
    && e.fields.region == d.region && e.fields.artefactId == d.artefactId && e.fields.contentHash == d.contentHash
    && e.fields.verdict == d.verdict && e.fields.approver == d.approver && e.labels == d.labels
    && e.fields.at == s.at && e.fields.policyVersion == s.policyVersion && e.fields.lawfulBasis == s.lawfulBasis
    && e.fields.runId == s.runId
  }

  /** What was there stays in front, and each decision has its entry behind it, in order. */
  ghost predicate Ledgered(before: seq<Entry>, after: seq<Entry>, s: RunSettings, decisions: seq<Decision>) {
    && |after| == |before| + |decisions| && before <= after
    && forall k :: 0 <= k < |decisions| ==> Records(after[|before| + k], s, decisions[k])
  }

  lemma {:induction false} RunExtends(files: Files, s: RunSettings, decisions: seq<Decision>, region: string)
    ensures Ledgered(EntriesOf(files, region), EntriesOf(AppendAll(files, s, decisions), region), s,
              DecisionsFor(region, decisions))
    decreases |decisions|
  {
    if decisions != [] {
      var d := decisions[0];
      var next := Added(files, NextEntry(files, s, d));
      RunExtends(next, s, decisions[1..], region);
      if d.region == region {
        LedgerFirst(EntriesOf(files, region), NextEntry(files, s, d), EntriesOf(AppendAll(files, s, decisions), region),
            s, d, DecisionsFor(region, decisions[1..]));
      }
    }
  }

  lemma LedgerFirst(before: seq<Entry>, e: Entry, after: seq<Entry>, s: RunSettings, d: Decision, rest: seq<Decision>)
    requires Records(e, s, d) && Ledgered(before + [e], after, s, rest)
    ensures Ledgered(before, after, s, [d] + rest)
  {
    assert after[|before|] == (before + [e])[|before|];
    forall k | 0 <= k < |[d] + rest| ensures Records(after[|before| + k], s, ([d] + rest)[k]) {
      if k > 0 { assert Records(after[|before + [e]| + (k - 1)], s, rest[k - 1]); }
    }
  }

  /** Every region's entries carry its name and are numbered from one without a gap. */
  ghost predicate AllNumbered(files: Files) {
    forall r :: r in files ==> NumberedFrom1(r, files[r])
  }

  ghost predicate NumberedFrom1(region: string, entries: seq<Entry>) {
    forall i :: 0 <= i < |entries| ==> Numbered(entries[i].fields.entryId, region, i + 1)
  }

  /** No two entries of the store share an id. */
  ghost predicate IdsApart(files: Files) {
    forall r, s, i, j :: r in files && s in files && SameId(files[r], i, files[s], j) ==> r == s && i == j
  }

  ghost predicate SameId(a: seq<Entry>, i: int, b: seq<Entry>, j: int) {
    0 <= i < |a| && 0 <= j < |b| && a[i].fields.entryId == b[j].fields.entryId
  }

  lemma NumbersTellApart(files: Files)
    requires AllNumbered(files)
    ensures IdsApart(files)
  {
    forall r, s, i, j | r in files && s in files && SameId(files[r], i, files[s], j) ensures r == s && i == j {
      NumberedOnce(files[r][i].fields.entryId, r, i + 1, s, j + 1);
    }
  }

  lemma {:induction false} RunNumbers(files: Files, s: RunSettings, decisions: seq<Decision>)
    requires AllNumbered(files)
    ensures AllNumbered(AppendAll(files, s, decisions))
    decreases |decisions|
  {
    if decisions != [] {
      NextNumbered(files, NextEntry(files, s, decisions[0]), s, decisions[0]);
      RunNumbers(Added(files, NextEntry(files, s, decisions[0])), s, decisions[1..]);
    }
  }

  lemma NextNumbered(files: Files, e: Entry, s: RunSettings, d: Decision)
    requires AllNumbered(files) && e == NextEntry(files, s, d)
    ensures AllNumbered(Added(files, e))
  {
    EntryIdNumbered(d.region, |EntriesOf(files, d.region)| + 1);
    assert NumberedFrom1(d.region, EntriesOf(files, d.region));
    assert NumberedFrom1(d.region, EntriesOf(files, d.region) + [e]);
  }

  // ------------------------------------------------------------- store and sequencer

  ghost predicate Caches(files: Files, seqByRegion: map<string, nat>, latestByRegion: map<string, Option<string>>) {
    && (forall r :: r in seqByRegion ==> seqByRegion[r] == |EntriesOf(files, r)|)
    && (forall r :: r in latestByRegion ==> latestByRegion[r] == HeadOf(files, r))
  }

  lemma CachesAfterAppend(files: Files, e: Entry, seqByRegion: map<string, nat>,
        latestByRegion: map<string, Option<string>>, read: Option<string>)
    requires Caches(files, seqByRegion, latestByRegion)
    ensures Caches(Added(files, e), seqByRegion[e.fields.region := |EntriesOf(files, e.fields.region)| + 1],
                   latestByRegion[e.fields.region := read][e.fields.region := Some(e.hash)])
  {
  }

  class LedgerStore {
    var files: Files

    constructor (files: Files)
      ensures this.files == files
    {
      this.files := files;
    }

    method Append(e: Entry)
      modifies this
      ensures files == Added(old(files), e)
      ensures forall region :: region != e.fields.region ==> EntriesOf(files, region) == EntriesOf(old(files), region)
    {
      files := Added(files, e);
    }

    method ReadAll(region: string) returns (entries: seq<Entry>)
      ensures entries == EntriesOf(files, region)
    {
      entries := if region in files then files[region] else [];
    }

    method LatestHash(region: string) returns (hash: Option<string>)
      ensures hash == HeadOf(files, region)
    {
      var entries := ReadAll(region);
      if entries == [] { return None; }
      hash := Some(entries[|entries| - 1].hash);
    }
  }

  class LedgerSequencer {
    const store: LedgerStore
    var seqByRegion: map<string, nat>
    var latestByRegion: map<string, Option<string>>

    constructor (store: LedgerStore)
      ensures this.store == store && Coherent()
    {
      this.store, seqByRegion, latestByRegion := store, map[], map[];
    }

    /** Every cached count and head is what re-reading the store would give. */
    ghost predicate Coherent()
      reads this, store
    {
      Caches(store.files, seqByRegion, latestByRegion)
    }

    method NextEntryId(region: string) returns (entryId: string)
      requires Coherent()
      modifies this`seqByRegion
      ensures entryId == EntryId(region, |EntriesOf(store.files, region)| + 1)
      ensures Numbered(entryId, region, |EntriesOf(store.files, region)| + 1)
      ensures seqByRegion == old(seqByRegion)[region := |EntriesOf(store.files, region)| + 1]
    {
      if region !in seqByRegion {
        var entries := store.ReadAll(region);
        seqByRegion := seqByRegion[region := |entries|];
      }
      seqByRegion := seqByRegion[region := seqByRegion[region] + 1];
      entryId := EntryId(region, seqByRegion[region]);
      EntryIdNumbered(region, seqByRegion[region]);
    }

    method PrevHash(region: string) returns (hash: Option<string>)
      requires region in latestByRegion ==> latestByRegion[region] == HeadOf(store.files, region)
      modifies this`latestByRegion
      ensures hash == HeadOf(store.files, region)
      ensures latestByRegion == old(latestByRegion)[region := hash]
    {
      if region !in latestByRegion {
        var read := store.LatestHash(region);
        latestByRegion := latestByRegion[region := read];
      }
      hash := latestByRegion[region];
    }

    method Record(region: string, newHash: string)
      modifies this`latestByRegion
      ensures latestByRegion == old(latestByRegion)[region := Some(newHash)]
    {
      latestByRegion := latestByRegion[region := Some(newHash)];
    }
  }

  /** One turn of assemble_corpus_manifest's loop keeps the caches coherent and appends the
      entry that re-reading the store would have produced. */
  method LedgerDecision(store: LedgerStore, sequencer: LedgerSequencer, s: RunSettings, d: Decision)
    requires sequencer.store == store && sequencer.Coherent()
    modifies store, sequencer
    ensures sequencer.Coherent()
    ensures store.files == Added(old(store.files), NextEntry(old(store.files), s, d))
  {
    var entryId := sequencer.NextEntryId(d.region);
    var prev := sequencer.PrevHash(d.region);
    var entry := EntryFor(s, d, entryId, prev);
    CachesAfterAppend(store.files, entry, old(sequencer.seqByRegion), old(sequencer.latestByRegion), prev);
    store.Append(entry);
    sequencer.Record(d.region, entry.hash);
  }

  /** The append loop of one run. A run that dies part-way leaves the store as after the
      decisions it had ledgered, which is this method on that prefix. */
  method AssembleManifest(store: LedgerStore, s: RunSettings, decisions: seq<Decision>)
    modifies store
    ensures store.files == AppendAll(old(store.files), s, decisions)
    ensures forall r :: Ledgered(EntriesOf(old(store.files), r), EntriesOf(store.files, r), s,
            DecisionsFor(r, decisions))
    ensures AllNumbered(old(store.files)) ==> AllNumbered(store.files) && IdsApart(store.files)
  {
    forall r
      ensures Ledgered(EntriesOf(store.files, r), EntriesOf(AppendAll(store.files, s, decisions), r), s,
                DecisionsFor(r, decisions))
    {
      RunExtends(store.files, s, decisions, r);
    }
    if AllNumbered(store.files) {
      RunNumbers(store.files, s, decisions);
      NumbersTellApart(AppendAll(store.files, s, decisions));
    }
    var sequencer := new LedgerSequencer(store);
    for i := 0 to |decisions|
      invariant fresh(sequencer) && sequencer.store == store && sequencer.Coherent()
      invariant AppendAll(store.files, s, decisions[i..]) == AppendAll(old(store.files), s, decisions)
    {
      assert decisions[i..][1..] == decisions[i + 1..];
      LedgerDecision(store, sequencer, s, decisions[i]);
    }
  }

  // ------------------------------------------------------------------- every run

  /** Every region's file holds its own entries, verified and numbered from one. */
  ghost predicate Sound(c: Crypto, key: string, files: Files) {
    forall r :: r in files ==> SoundRegion(c, key, r, files[r])
  }

  ghost predicate SoundRegion(c: Crypto, key: string, region: string, entries: seq<Entry>) {
    && Unbroken(c, Some(key), entries)
    && (forall i :: 0 <= i < |entries| ==> Schema(entries[i]) && entries[i].fields.region == region)
    && NumberedFrom1(region, entries)
  }

  lemma AppendKeepsRegionSound(s: RunSettings, files: Files, d: Decision)
    requires HexDigests(s.crypto) && SoundRegion(s.crypto, s.key, d.region, EntriesOf(files, d.region))
    ensures SoundRegion(s.crypto, s.key, d.region, EntriesOf(files, d.region) + [NextEntry(files, s, d)])
  {
    var before, e := EntriesOf(files, d.region), NextEntry(files, s, d);
    var after := before + [e];
    EntryIdNumbered(d.region, |before| + 1);
    forall i | 0 <= i < |after| ensures Linked(after, i) {
      if i < |before| { assert Linked(before, i); }
    }
    forall i | 0 <= i < |after| ensures Genuine(s.crypto, Some(s.key), after[i]) {
      if i < |before| { assert after[i] == before[i]; }
    }
  }

  lemma {:induction false} RunKeepsSound(files: Files, s: RunSettings, decisions: seq<Decision>)
    requires HexDigests(s.crypto) && Sound(s.crypto, s.key, files)
    ensures Sound(s.crypto, s.key, AppendAll(files, s, decisions))
    decreases |decisions|
  {
    if decisions != [] {
      var d := decisions[0];
      AppendKeepsRegionSound(s, files, d);
      RunKeepsSound(Added(files, NextEntry(files, s, d)), s, decisions[1..]);
    }
  }

  datatype Batch = Batch(settings: RunSettings, decisions: seq<Decision>)

  /** Any number of runs over one store, each with its own sequencer. */
  method RunAll(store: LedgerStore, crypto: Crypto, key: string, batches: seq<Batch>)
    requires HexDigests(crypto) && Sound(crypto, key, store.files)
    requires forall i :: 0 <= i < |batches| ==> batches[i].settings.crypto == crypto && batches[i].settings.key == key
    modifies store
    ensures Sound(crypto, key, store.files)
    ensures forall r :: Violations(crypto, Some(key), EntriesOf(store.files, r)) == []
    ensures forall r :: EntriesOf(old(store.files), r) <= EntriesOf(store.files, r)
    ensures AllNumbered(store.files) && IdsApart(store.files)
  {
    for i := 0 to |batches|
      invariant Sound(crypto, key, store.files)
      invariant forall r :: EntriesOf(old(store.files), r) <= EntriesOf(store.files, r)
    {
      ghost var before := store.files;
      AssembleManifest(store, batches[i].settings, batches[i].decisions);
      RunKeepsSound(before, batches[i].settings, batches[i].decisions);
      forall r ensures EntriesOf(old(store.files), r) <= EntriesOf(store.files, r) {
        PrefixTransitive(EntriesOf(old(store.files), r), EntriesOf(before, r), EntriesOf(store.files, r));
      }
    }
    assert AllNumbered(store.files);
    NumbersTellApart(store.files);
    forall r ensures Violations(crypto, Some(key), EntriesOf(store.files, r)) == [] {
      VerifierExact(crypto, Some(key), EntriesOf(store.files, r));
    }
  }

  lemma PrefixTransitive(a: seq<Entry>, b: seq<Entry>, c: seq<Entry>)
    requires a <= b && b <= c
    ensures a <= c
  {
  }
}
