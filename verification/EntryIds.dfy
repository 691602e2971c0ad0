/**
 connectors/manifest.py's entry ids, read back: the region and the number can be told from the id.
 */
module EntryIds {
  import Text

  predicate IsDigit(c: char) { '0' <= c <= '9' }

  predicate IsDecimal(s: string) { s != "" && forall i :: 0 <= i < |s| ==> IsDigit(s[i]) }

  /** int(s) */
  function ReadDecimal(s: string): nat
    requires forall i :: 0 <= i < |s| ==> IsDigit(s[i])
  {
    if s == "" then 0
    else
      var last := s[|s| - 1];
      assert IsDigit(last);
      10 * ReadDecimal(s[..|s| - 1]) + (last as int - '0' as int)
  }

  /** f"{n:06d}" */
  function Padded(n: nat): string { Zeros(6, Text.Digits(n)) }

  function Zeros(width: nat, s: string): string
    decreases width - |s|
  {
    if |s| < width then Zeros(width, "0" + s) else s
  }

  function EntryId(region: string, n: nat): string { "ledger-" + region + "-" + Padded(n) }

  /** Decimal digits of n: six of them with zeros in front, more only where n needs more. */
  ghost predicate SixOrMore(digits: string, n: nat) {
    IsDecimal(digits) && ReadDecimal(digits) == n && |digits| >= 6 && (|digits| > 6 ==> digits[0] != '0')
  }

  /** The id of the n-th entry of a region. */
  ghost predicate Numbered(id: string, region: string, n: nat) {
    exists digits :: id == "ledger-" + region + "-" + digits && SixOrMore(digits, n)
  }

  lemma {:induction false} DigitsReadBack(n: nat)
    ensures IsDecimal(Text.Digits(n)) && ReadDecimal(Text.Digits(n)) == n
    ensures n > 0 ==> Text.Digits(n)[0] != '0'
  {
    var digits := Text.Digits(n);
    if n < 10 {
      assert digits[..0] == "";
    } else {
      DigitsReadBack(n / 10);
      assert digits[..|digits| - 1] == Text.Digits(n / 10);
    }
  }

  lemma {:induction false} ZeroInFront(s: string)
    requires forall i :: 0 <= i < |s| ==> IsDigit(s[i])
    ensures (forall i :: 0 <= i < |"0" + s| ==> IsDigit(("0" + s)[i])) && ReadDecimal("0" + s) == ReadDecimal(s)
  {
    if s == "" {
      assert ("0" + s)[..0] == "";
    } else {
      ZeroInFront(s[..|s| - 1]);
      assert ("0" + s)[..|s|] == "0" + s[..|s| - 1];
    }
  }

  lemma {:induction false} ZerosReadBack(width: nat, s: string)
    requires IsDecimal(s)
    ensures IsDecimal(Zeros(width, s)) && ReadDecimal(Zeros(width, s)) == ReadDecimal(s)
    ensures if |s| < width then |Zeros(width, s)| == width else Zeros(width, s) == s
    decreases width - |s|
  {
    if |s| < width {
      ZeroInFront(s);
      ZerosReadBack(width, "0" + s);
    }
  }

  /** The id built for an entry carries its region and its number. */
  lemma EntryIdNumbered(region: string, n: nat)
    requires n > 0
    ensures Numbered(EntryId(region, n), region, n)
  {
    DigitsReadBack(n);
    ZerosReadBack(6, Text.Digits(n));
    assert SixOrMore(Padded(n), n);
  }

  /** A longer tail holds the dash before the shorter one. */
  lemma DashInside(a: string, d: string, b: string, e: string)
    requires a + "-" + d == b + "-" + e && |d| < |e|
    ensures '-' in e
  {
    var s := a + "-" + d;
    assert e[|e| - |d| - 1] == s[|a|] == '-';
  }

  lemma SameTail(a: string, d: string, b: string, e: string)
    requires a + "-" + d == b + "-" + e && '-' !in d && '-' !in e
    ensures a == b && d == e
  {
    var s := a + "-" + d;
    if |d| < |e| { DashInside(a, d, b, e); }
    if |e| < |d| { DashInside(b, e, a, d); }
    assert |a| == |b| && s[..|a|] == a && s[..|b|] == b;
    assert s[|a| + 1..] == d && s[|b| + 1..] == e;
  }

  /** One id, one region and one number, whatever dashes the regions hold. */
  lemma NumberedOnce(id: string, r: string, n: nat, s: string, m: nat)
    requires Numbered(id, r, n) && Numbered(id, s, m)
    ensures r == s && n == m
  {
    var d :| id == "ledger-" + r + "-" + d && SixOrMore(d, n);
    var e :| id == "ledger-" + s + "-" + e && SixOrMore(e, m);
    SameTail("ledger-" + r, d, "ledger-" + s, e);
    assert ("ledger-" + r)[7..] == r && ("ledger-" + s)[7..] == s;
  }
}
