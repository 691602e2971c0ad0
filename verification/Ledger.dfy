/**
 contracts/validators.py and gate/ledger.py: the hash-chained egress ledger of one region,
 its entry builder, its independent verifier, and what verification does and does not
 prove. The digest of a body and the signature of a digest are uninterpreted.
 */
module Ledger {
  import opened Wrappers
  import Order

  datatype Fields = Fields(
    entryId: string, at: string, region: string, artefactId: string, contentHash: string, verdict: string,
    policyVersion: int, lawfulBasis: string, approver: Option<string>, runId: string)

  datatype Entry = Entry(fields: Fields, labels: seq<string>, prevHash: Option<string>, hash: string, signature: string)

  /** What is hashed: every field except the hash and the signature, labels sorted. */
  datatype Body = Body(fields: Fields, labels: seq<string>, prevHash: Option<string>)

  datatype Crypto = Crypto(digest: Body -> string, mac: (string, string) -> string)

  function LedgerBody(e: Entry): Body { Body(e.fields, Order.Sort(e.labels), e.prevHash) }

  predicate IsHex64(h: string) {
    |h| == 64 && forall i :: 0 <= i < |h| ==> '0' <= h[i] <= '9' || 'a' <= h[i] <= 'f'
  }

  /** The C3 schema's patterns on the two hash fields. */
  predicate Schema(e: Entry) { IsHex64(e.hash) && (e.prevHash.Some? ==> IsHex64(e.prevHash.value)) }

  ghost predicate HexDigests(c: Crypto) { forall b :: IsHex64(c.digest(b)) }

  ghost predicate CollisionFree(c: Crypto) { forall a, b :: c.digest(a) == c.digest(b) ==> a == b }

  /** append_ledger_entry: a provisional entry, then its hash and the signature of that hash. */
  function MakeEntry(c: Crypto, key: string, fields: Fields, labels: seq<string>, prevHash: Option<string>): Entry {
    var provisional := Entry(fields, labels, prevHash, seq(64, i => '0'), "");
    var hash := c.digest(LedgerBody(provisional));
    provisional.(hash := hash, signature := c.mac(key, hash))
  }

  // ------------------------------------------------------------------ the verifier

  datatype Violation =
    | SpansRegions | GenesisHasPrev(entryId: string) | BrokenLink(entryId: string)
    | Tampered(entryId: string) | BadSignature(entryId: string)

  /** str() of an optional hash. */
  function Show(h: Option<string>): string { h.GetOr("None") }

  function LinkViolations(first: bool, previous: Option<string>, e: Entry): seq<Violation> {
    if first then (if e.prevHash.Some? then [GenesisHasPrev(e.fields.entryId)] else [])
    else if Show(e.prevHash) != Show(previous) then [BrokenLink(e.fields.entryId)]
    else []
  }

  function EntryViolations(c: Crypto, key: Option<string>, first: bool, previous: Option<string>,
        e: Entry): seq<Violation>
  {
    LinkViolations(first, previous, e)
    + (if c.digest(LedgerBody(e)) != e.hash then [Tampered(e.fields.entryId)] else [])
    + (if key.Some? && c.mac(key.value, e.hash) != e.signature then [BadSignature(e.fields.entryId)] else [])
  }

  function ChainViolations(c: Crypto, key: Option<string>, first: bool, previous: Option<string>,
        entries: seq<Entry>): seq<Violation>
    decreases |entries|
  {
    if entries == [] then []
    else
      EntryViolations(c, key, first, previous, entries[0]) +
      ChainViolations(c, key, false, Some(entries[0].hash), entries[1..])
  }

  predicate OneRegion(entries: seq<Entry>) {
    forall i, j :: 0 <= i < j < |entries| ==> entries[i].fields.region == entries[j].fields.region
  }

  function Violations(c: Crypto, key: Option<string>, entries: seq<Entry>): seq<Violation> {
    if !OneRegion(entries) then [SpansRegions] else ChainViolations(c, key, true, None, entries)
  }

  /** One turn of the verifier's loop. */
  method CheckEntry(c: Crypto, key: Option<string>, index: nat, previous: Option<string>, e: Entry)
    returns (violations: seq<Violation>)
    ensures violations == EntryViolations(c, key, index == 0, previous, e)
  {
    violations := [];
    if index == 0 {
      if e.prevHash.Some? { violations := violations + [GenesisHasPrev(e.fields.entryId)]; }
    } else if Show(e.prevHash) != Show(previous) {
      violations := violations + [BrokenLink(e.fields.entryId)];
    }
    var recomputed := c.digest(LedgerBody(e));
    if recomputed != e.hash { violations := violations + [Tampered(e.fields.entryId)]; }
    if key.Some? && c.mac(key.value, e.hash) != e.signature {
      violations := violations + [BadSignature(e.fields.entryId)];
    }
  }

  method CheckLinks(c: Crypto, key: Option<string>, entries: seq<Entry>) returns (violations: seq<Violation>)
    ensures violations == ChainViolations(c, key, true, None, entries)
  {
    violations := [];
    var previous: Option<string> := None;
    for i := 0 to |entries|
      invariant previous == LastHash(None, entries[..i])
      invariant violations == ChainViolations(c, key, true, None, entries[..i])
    {
      var found := CheckEntry(c, key, i, previous, entries[i]);
      ChainAppend(c, key, true, None, entries[..i], entries[i]);
      assert entries[..i + 1] == entries[..i] + [entries[i]];
      violations := violations + found;
      previous := Some(entries[i].hash);
    }
    assert entries[..|entries|] == entries;
  }

  function LastHash(previous: Option<string>, entries: seq<Entry>): Option<string> {
    if entries == [] then previous else Some(entries[|entries| - 1].hash)
  }

  /** One more entry adds what the verifier finds in it after the entry before. */
  lemma {:induction false} ChainAppend(c: Crypto, key: Option<string>, first: bool, previous: Option<string>,
        entries: seq<Entry>, e: Entry)
    ensures ChainViolations(c, key, first, previous, entries + [e])
            == ChainViolations(c, key, first, previous, entries) +
                EntryViolations(c, key, first && entries == [], LastHash(previous, entries), e)
    decreases |entries|
  {
    if entries == [] {
      assert [e][1..] == [];
      assert ChainViolations(c, key, false, Some(e.hash), []) == [];
    } else {
      assert (entries + [e])[1..] == entries[1..] + [e];
      ChainAppend(c, key, false, Some(entries[0].hash), entries[1..], e);
    }
  }

  /** check_i6_ledger_chain_unbroken. */
  method CheckChain(c: Crypto, key: Option<string>, entries: seq<Entry>) returns (violations: seq<Violation>)
    requires forall i :: 0 <= i < |entries| ==> Schema(entries[i])
    ensures violations == Violations(c, key, entries)
    ensures violations == [] <==> Unbroken(c, key, entries)
  {
    VerifierExact(c, key, entries);
    if !OneRegion(entries) { return [SpansRegions]; }
    violations := CheckLinks(c, key, entries);
  }

  // ------------------------------------------------------- what it means to verify

  ghost predicate Genuine(c: Crypto, key: Option<string>, e: Entry) {
    e.hash == c.digest(LedgerBody(e)) && (key.Some? ==> e.signature == c.mac(key.value, e.hash))
  }

  ghost predicate Linked(entries: seq<Entry>, i: nat)
    requires i < |entries|
  {
    entries[i].prevHash == if i == 0 then None else Some(entries[i - 1].hash)
  }

  ghost predicate ChainedFrom(c: Crypto, key: Option<string>, entries: seq<Entry>, k: nat) {
    && (forall i {:trigger Linked(entries, i)} :: k <= i < |entries| ==> Linked(entries, i))
    && (forall i :: k <= i < |entries| ==> Genuine(c, key, entries[i]))
  }

  ghost predicate Chained(c: Crypto, key: Option<string>, entries: seq<Entry>) { ChainedFrom(c, key, entries, 0) }

  ghost predicate Unbroken(c: Crypto, key: Option<string>, entries: seq<Entry>) {
    OneRegion(entries) && Chained(c, key, entries)
  }

  lemma {:induction false} ChainExact(c: Crypto, key: Option<string>, entries: seq<Entry>, k: nat)
    requires k <= |entries| && forall i :: 0 <= i < |entries| ==> Schema(entries[i])
    ensures ChainViolations(c, key, k == 0, if k == 0 then None else Some(entries[k - 1].hash), entries[k..]) == []
            <==> ChainedFrom(c, key, entries, k)
    decreases |entries| - k
  {
    if k < |entries| {
      ChainExact(c, key, entries, k + 1);
      assert entries[k..][0] == entries[k] && entries[k..][1..] == entries[k + 1..];
      EntryExact(c, key, entries, k);
      assert ChainedFrom(c, key, entries, k) <==>
             Linked(entries, k) && Genuine(c, key, entries[k]) && ChainedFrom(c, key, entries, k + 1);
    }
  }

  lemma EntryExact(c: Crypto, key: Option<string>, entries: seq<Entry>, k: nat)
    requires k < |entries| && Schema(entries[k]) && (k > 0 ==> Schema(entries[k - 1]))
    ensures EntryViolations(c, key, k == 0, if k == 0 then None else Some(entries[k - 1].hash), entries[k]) == []
            <==> Linked(entries, k) && Genuine(c, key, entries[k])
  {
    assert |"None"| == 4;
  }

  /** The verifier reports nothing exactly for unbroken chains of genuine entries. */
  lemma VerifierExact(c: Crypto, key: Option<string>, entries: seq<Entry>)
    requires forall i :: 0 <= i < |entries| ==> Schema(entries[i])
    ensures Violations(c, key, entries) == [] <==> Unbroken(c, key, entries)
  {
    ChainExact(c, key, entries, 0);
    assert entries[0..] == entries;
  }

  // ------------------------------------------------------------ tamper evidence

  lemma SameHashSameBody(c: Crypto, key: Option<string>, key': Option<string>, x: Entry, y: Entry)
    requires CollisionFree(c) && Genuine(c, key, x) && Genuine(c, key', y) && x.hash == y.hash
    ensures SameBody(x, y) && x.prevHash == y.prevHash
  {
  }

  ghost predicate SameBody(x: Entry, y: Entry) { LedgerBody(x) == LedgerBody(y) }

  /** What the digest sees: every field but the hash and the signature, and the labels up to order. */
  lemma SameBodyIff(x: Entry, y: Entry)
    ensures SameBody(x, y) <==>
            x.fields == y.fields && x.prevHash == y.prevHash && multiset(x.labels) == multiset(y.labels)
  {
    Order.SortForgetsOrder(x.labels, y.labels);
  }

  /** With a collision-free digest an entry's hash fixes its position and everything up to it. */
  lemma {:induction false} HashFixesHistory(c: Crypto, key: Option<string>, key': Option<string>, a: seq<Entry>,
        b: seq<Entry>, i: nat, j: nat)
    requires CollisionFree(c) && Chained(c, key, a) && Chained(c, key', b)
    requires i < |a| && j < |b| && a[i].hash == b[j].hash
    ensures i == j
    ensures forall k :: 0 <= k <= i ==> SameBody(a[k], b[k])
    decreases i
  {
    assert Genuine(c, key, a[i]) && Genuine(c, key', b[j]) && Linked(a, i) && Linked(b, j);
    SameHashSameBody(c, key, key', a[i], b[j]);
    if i > 0 && j > 0 {
      HashFixesHistory(c, key, key', a, b, i - 1, j - 1);
    }
  }

  /** Two verified chains with the same head have the same length and the same bodies, labels
      up to order; nothing about their lengths need be known beforehand. */
  lemma SameHeadSameHistory(c: Crypto, key: Option<string>, key': Option<string>, a: seq<Entry>, b: seq<Entry>)
    requires CollisionFree(c) && Unbroken(c, key, a) && Unbroken(c, key', b)
    requires a != [] && b != [] && a[|a| - 1].hash == b[|b| - 1].hash
    ensures |a| == |b|
    ensures forall k :: 0 <= k < |a| ==>
              && a[k].fields == b[k].fields && multiset(a[k].labels) == multiset(b[k].labels)
              && a[k].prevHash == b[k].prevHash && a[k].hash == b[k].hash
  {
    HashFixesHistory(c, key, key', a, b, |a| - 1, |b| - 1);
    forall k | 0 <= k < |a|
      ensures a[k].fields == b[k].fields && multiset(a[k].labels) == multiset(b[k].labels)
              && a[k].prevHash == b[k].prevHash && a[k].hash == b[k].hash
    {
      assert SameBody(a[k], b[k]) && Genuine(c, key, a[k]) && Genuine(c, key', b[k]);
      Order.SortForgetsOrder(a[k].labels, b[k].labels);
    }
  }

  /** Any selection, repetition or reordering of a verified chain's own entries verifies
      exactly when it is a prefix: deletion, duplication and swapping are always caught, and
      cutting entries off the end never is. */
  lemma RearrangementCaught(c: Crypto, key: Option<string>, a: seq<Entry>, b: seq<Entry>)
    requires CollisionFree(c) && Unbroken(c, key, a)
    requires forall e :: e in b ==> e in a
    ensures Unbroken(c, key, b) <==> b <= a
  {
    if Unbroken(c, key, b) {
      forall k | 0 <= k < |b| ensures k < |a| && b[k] == a[k] {
        assert b[k] in b;
        var j :| 0 <= j < |a| && a[j] == b[k];
        HashFixesHistory(c, key, key, a, b, j, k);
      }
      assert |b| > 0 ==> b[|b| - 1] in a && |b| <= |a|;
      assert b == a[..|b|];
    }
    if b <= a {
      assert b == a[..|b|];
      PrefixVerifies(c, key, a, |b|);
    }
  }

  lemma PrefixVerifies(c: Crypto, key: Option<string>, a: seq<Entry>, n: nat)
    requires Unbroken(c, key, a) && n <= |a|
    ensures Unbroken(c, key, a[..n])
  {
    forall k | 0 <= k < n ensures Linked(a[..n], k) {
      assert Linked(a, k);
    }
  }

  function Without(a: seq<Entry>, i: nat): seq<Entry>
    requires i < |a|
  {
    a[..i] + a[i + 1..]
  }

  /** Deleting one entry goes unnoticed exactly when it is the last. */
  lemma DeletionCaughtUnlessLast(c: Crypto, key: Option<string>, a: seq<Entry>, i: nat)
    requires CollisionFree(c) && Unbroken(c, key, a) && i < |a|
    ensures Unbroken(c, key, Without(a, i)) <==> i == |a| - 1
  {
    var b := Without(a, i);
    RearrangementCaught(c, key, a, b);
    if b <= a && i < |a| - 1 {
      assert b[i] == a[i + 1] && b[i] == a[i];
      HashFixesHistory(c, key, key, a, a, i, i + 1);
    }
  }

  /** Swapping two entries is always caught. */
  lemma SwapCaught(c: Crypto, key: Option<string>, a: seq<Entry>, i: nat, j: nat)
    requires CollisionFree(c) && Unbroken(c, key, a) && i < j < |a|
    ensures !Unbroken(c, key, a[i := a[j]][j := a[i]])
  {
    var b := a[i := a[j]][j := a[i]];
    if Unbroken(c, key, b) {
      HashFixesHistory(c, key, key, a, b, j, i);
    }
  }

  /** Putting any entry in place of another passes exactly when it is genuine and, in the
      interior, has the very body of the entry it replaces; at the end a genuine successor in
      the region passes too. */
  lemma AlterationCaught(c: Crypto, key: Option<string>, a: seq<Entry>, i: nat, e: Entry)
    requires CollisionFree(c) && Unbroken(c, key, a) && i < |a|
    ensures i < |a| - 1 ==> (Unbroken(c, key, a[i := e]) <==> SameBody(e, a[i]) && Genuine(c, key, e))
    ensures i == |a| - 1 ==> (Unbroken(c, key, a[i := e]) <==>
              e.prevHash == a[i].prevHash && Genuine(c, key, e) && (i > 0 ==> e.fields.region == a[0].fields.region))
  {
    var b := a[i := e];
    if Unbroken(c, key, b) {
      assert Linked(a, i) && Linked(b, i) && Genuine(c, key, b[i]);
      if i < |a| - 1 { HashFixesHistory(c, key, key, a, b, |a| - 1, |b| - 1); }
    }
    if Genuine(c, key, e) && (if i < |a| - 1 then SameBody(e, a[i]) else Successor(a, i, e)) {
      assert Genuine(c, key, a[i]);
      forall k | 0 <= k < |b| ensures Linked(b, k) && Genuine(c, key, b[k]) {
        assert Linked(a, k);
      }
    }
  }

  predicate Successor(a: seq<Entry>, i: nat, e: Entry)
    requires i < |a|
  {
    e.prevHash == a[i].prevHash && (i > 0 ==> e.fields.region == a[0].fields.region)
  }

  // ---------------------------------------------------- what the verifier reports

  ghost predicate SchemaValid(entries: seq<Entry>) { forall e :: e in entries ==> Schema(e) }

  /** A chain the verifier finds nothing in. */
  ghost predicate Verified(c: Crypto, key: Option<string>, a: seq<Entry>) {
    SchemaValid(a) && Violations(c, key, a) == []
  }

  /** Of any selection, repetition or reordering of a verified chain's entries the verifier
      reports something exactly when it is not a prefix. */
  lemma RearrangementReported(c: Crypto, key: Option<string>, a: seq<Entry>, b: seq<Entry>)
    requires CollisionFree(c) && Verified(c, key, a) && forall e :: e in b ==> e in a
    ensures Violations(c, key, b) != [] <==> !(b <= a)
  {
    VerifierExact(c, key, a);
    VerifierExact(c, key, b);
    RearrangementCaught(c, key, a, b);
  }

  lemma DeletionReportedUnlessLast(c: Crypto, key: Option<string>, a: seq<Entry>, i: nat)
    requires CollisionFree(c) && Verified(c, key, a) && i < |a|
    ensures Violations(c, key, Without(a, i)) != [] <==> i < |a| - 1
  {
    VerifierExact(c, key, a);
    VerifierExact(c, key, Without(a, i));
    DeletionCaughtUnlessLast(c, key, a, i);
  }

  lemma SwapReported(c: Crypto, key: Option<string>, a: seq<Entry>, i: nat, j: nat)
    requires CollisionFree(c) && Verified(c, key, a) && i < j < |a|
    ensures Violations(c, key, a[i := a[j]][j := a[i]]) != []
  {
    VerifierExact(c, key, a);
    VerifierExact(c, key, a[i := a[j]][j := a[i]]);
    SwapCaught(c, key, a, i, j);
  }

  /** Of an entry that follows the schema, put in place of another, the verifier reports
      something unless it is genuine and fits there as AlterationCaught says. */
  lemma AlterationReported(c: Crypto, key: Option<string>, a: seq<Entry>, i: nat, e: Entry)
    requires CollisionFree(c) && Verified(c, key, a) && i < |a| && Schema(e)
    ensures Violations(c, key, a[i := e]) != []
            <==> !Genuine(c, key, e) || !(if i < |a| - 1 then SameBody(e, a[i]) else Successor(a, i, e))
  {
    VerifierExact(c, key, a);
    VerifierExact(c, key, a[i := e]);
    AlterationCaught(c, key, a, i, e);
  }
}
