/** Reconciling database credit lines with on-chain records by borrower wallet. */
module Reconciliation {
  import opened Wrappers
  import opened Decimal
  import opened OnChainEnumeration

  datatype CreditLine = CreditLine(
    id: string, walletAddress: string, creditLimit: string, availableCredit: string,
    interestRateBps: int, status: string)

  datatype Field =
    | Existence | WalletAddress | WalletAddressFormatting
    | CreditLimit | AvailableCredit | InterestRateBps | Status

  datatype Cell = Text(text: string) | Number(number: int) | Exists | Missing

  datatype Severity = Critical | Warning

  datatype Mismatch = Mismatch(
    creditLineId: string, walletAddress: string, field: Field, dbValue: Cell, chainValue: Cell, severity: Severity)

  datatype Failure = EmptyWallet | DuplicateDb(wallet: string) | DuplicateChain(wallet: string)

  datatype Report = Report(totalChecked: nat, mismatches: seq<Mismatch>, errors: seq<Failure>)

  /** The shared natural key; a blank address throws. */
  predicate Blank(address: string) { Trim(address) == [] }

  function WalletKey(address: string): string { Trim(address) }

  // ---------------------------------------------------------------------------------------
  // Comparing one pair
  // ---------------------------------------------------------------------------------------

  function If(condition: bool, m: Mismatch): seq<Mismatch> { if condition then [m] else [] }

  function CompareWallets(l: CreditLine, c: ChainRecord): seq<Mismatch> {
    var dbKey, chainKey := WalletKey(l.walletAddress), WalletKey(c.walletAddress);
    if dbKey != chainKey then
      [Mismatch(l.id, dbKey, WalletAddress, Text(dbKey), Text(chainKey), Critical)]
    else
      If(l.walletAddress != c.walletAddress,
         Mismatch(l.id, dbKey, WalletAddressFormatting, Text(l.walletAddress), Text(c.walletAddress), Warning))
  }

  function CompareFields(l: CreditLine, c: ChainRecord): seq<Mismatch> {
    CompareWallets(l, c)
    + If(!DecimalStringsEqual(l.creditLimit, c.creditLimit),
         Mismatch(l.id, l.walletAddress, CreditLimit, Text(l.creditLimit), Text(c.creditLimit), Critical))
    + If(!DecimalStringsEqual(l.availableCredit, c.availableCredit),
         Mismatch(l.id, l.walletAddress, AvailableCredit, Text(l.availableCredit), Text(c.availableCredit), Warning))
    + If(l.interestRateBps != c.interestRateBps,
         Mismatch(l.id, l.walletAddress, InterestRateBps,
                  Number(l.interestRateBps), Number(c.interestRateBps), Warning))
    + If(l.status != c.status,
         Mismatch(l.id, l.walletAddress, Status, Text(l.status), Text(c.status), Critical))
  }

  ghost predicate AllSpace(s: string) { forall k :: 0 <= k < |s| ==> IsSpace(s[k]) }

  /** A string has one core: a stretch without white space at its ends and nothing else around. */
  ghost predicate CoreAt(s: string, from: nat, to: nat) {
    && from < to <= |s| && !IsSpace(s[from]) && !IsSpace(s[to - 1])
    && (forall k :: 0 <= k < |s| && !(from <= k < to) ==> IsSpace(s[k]))
  }

  lemma {:induction false} CoreIsUnique(s: string, from: nat, to: nat, i: nat, j: nat)
    requires CoreAt(s, from, to) && CoreAt(s, i, j)
    ensures from == i && to == j
  {
    hide IsSpace;
  }

  lemma {:induction false} CoreBetween(before: string, core: string, behind: string)
    requires AllSpace(before) && AllSpace(behind)
    requires core != [] ==> !IsSpace(core[0]) && !IsSpace(core[|core| - 1])
    ensures var s := before + core + behind;
            if core == [] then AllSpace(s) else CoreAt(s, |before|, |before| + |core|)
  {
    hide IsSpace;
    var s := before + core + behind;
    assert forall k :: 0 <= k < |before| ==> s[k] == before[k];
    assert forall k :: 0 <= k < |core| ==> s[|before| + k] == core[k];
    assert forall k :: |before| + |core| <= k < |s| ==> s[k] == behind[k - |before| - |core|];
  }

  /** The key of an address is what stands between its surrounding white space; an address is
      blank exactly when nothing does. */
  lemma {:induction false} WalletKeyIsCore(before: string, core: string, behind: string)
    requires AllSpace(before) && AllSpace(behind)
    requires core != [] ==> !IsSpace(core[0]) && !IsSpace(core[|core| - 1])
    ensures WalletKey(before + core + behind) == core
    ensures Blank(before + core + behind) <==> core == []
  {
    hide Trim, IsSpace;
    var s := before + core + behind;
    var from, to := TrimIsExact(s);
    CoreBetween(before, core, behind);
    if core != [] {
      assert from < to;
      CoreIsUnique(s, from, to, |before|, |before| + |core|);
      assert s[|before|..|before| + |core|] == core;
    }
  }

  // ---------------------------------------------------------------------------------------
  // The passes
  // ---------------------------------------------------------------------------------------

  function DbWallets(db: seq<CreditLine>): (w: seq<string>)
    ensures |w| == |db| && forall k :: 0 <= k < |w| ==> w[k] == db[k].walletAddress
  {
    seq(|db|, k requires 0 <= k < |db| => db[k].walletAddress)
  }

  function ChainWallets(chain: seq<ChainRecord>): (w: seq<string>)
    ensures |w| == |chain| && forall k :: 0 <= k < |w| ==> w[k] == chain[k].walletAddress
  {
    seq(|chain|, k requires 0 <= k < |chain| => chain[k].walletAddress)
  }

  /** Building a map from a list keeps the last record of each key. */
  function ChainMap(chain: seq<ChainRecord>): map<string, ChainRecord> {
    if chain == [] then map[]
    else ChainMap(chain[..|chain| - 1])[WalletKey(chain[|chain| - 1].walletAddress) := chain[|chain| - 1]]
  }

  function Keys(wallets: seq<string>): set<string> {
    set k | 0 <= k < |wallets| :: WalletKey(wallets[k])
  }

  function CheckLine(l: CreditLine, chainMap: map<string, ChainRecord>): seq<Mismatch> {
    var key := WalletKey(l.walletAddress);
    if key !in chainMap then [Mismatch(l.id, l.walletAddress, Existence, Exists, Missing, Critical)]
    else CompareFields(l, chainMap[key])
  }

  function DbPass(db: seq<CreditLine>, chainMap: map<string, ChainRecord>): seq<Mismatch> {
    if db == [] then [] else DbPass(db[..|db| - 1], chainMap) + CheckLine(db[|db| - 1], chainMap)
  }

  function CheckRecord(c: ChainRecord, dbKeys: set<string>): seq<Mismatch> {
    If(WalletKey(c.walletAddress) !in dbKeys,
       Mismatch(c.id, c.walletAddress, Existence, Missing, Exists, Critical))
  }

  function ChainPass(chain: seq<ChainRecord>, dbKeys: set<string>): seq<Mismatch> {
    if chain == [] then [] else ChainPass(chain[..|chain| - 1], dbKeys) + CheckRecord(chain[|chain| - 1], dbKeys)
  }

  function AllMismatches(db: seq<CreditLine>, chain: seq<ChainRecord>): seq<Mismatch> {
    DbPass(db, ChainMap(chain)) + ChainPass(chain, Keys(DbWallets(db)))
  }

  // ---------------------------------------------------------------------------------------
  // Duplicates
  // ---------------------------------------------------------------------------------------

  ghost predicate NoBlank(wallets: seq<string>) { forall k :: 0 <= k < |wallets| ==> !Blank(wallets[k]) }

  /** A key that at least two addresses share. */
  ghost predicate Repeated(wallets: seq<string>, key: string) {
    exists i, j :: 0 <= i < j < |wallets| && WalletKey(wallets[i]) == key == WalletKey(wallets[j])
  }

  ghost predicate UniqueKeys(wallets: seq<string>) {
    forall i, j :: 0 <= i < j < |wallets| ==> WalletKey(wallets[i]) != WalletKey(wallets[j])
  }

  /** None stands for the exception on a blank address; otherwise exactly the repeated keys. */
  method FindDuplicateWallets(wallets: seq<string>) returns (duplicates: Option<seq<string>>)
    ensures duplicates.None? <==> !NoBlank(wallets)
    ensures duplicates.Some? ==> forall key :: key in duplicates.value <==> Repeated(wallets, key)
    ensures duplicates.Some? ==> (duplicates.value == [] <==> UniqueKeys(wallets))
  {
    hide Trim;
    var seen: set<string> := {};
    var found: seq<string> := [];
    var n := 0;
    while n < |wallets|
      invariant 0 <= n <= |wallets|
      invariant NoBlank(wallets[..n])
      invariant seen == Keys(wallets[..n])
      invariant forall key :: key in found <==> Repeated(wallets[..n], key)
    {
      if Blank(wallets[n]) {
        return None;
      }
      var key := WalletKey(wallets[n]);
      SeenStep(wallets, n);
      if key in seen && key !in found {
        found := found + [key];
      }
      seen := seen + {key};
      n := n + 1;
    }
    assert wallets[..n] == wallets;
    NothingRepeated(wallets);
    if found != [] { assert found[0] in found; }
    return Some(found);
  }

  lemma {:induction false} SeenStep(wallets: seq<string>, n: nat)
    requires n < |wallets|
    ensures Keys(wallets[..n + 1]) == Keys(wallets[..n]) + {WalletKey(wallets[n])}
    ensures forall key :: Repeated(wallets[..n + 1], key)
              <==> Repeated(wallets[..n], key) || (key == WalletKey(wallets[n]) && key in Keys(wallets[..n]))
  {
    hide WalletKey;
    var a, b := wallets[..n], wallets[..n + 1];
    assert forall k :: 0 <= k < n ==> a[k] == b[k];
    forall key ensures Repeated(b, key) <==> Repeated(a, key) || (key == WalletKey(wallets[n]) && key in Keys(a)) {
      if Repeated(b, key) {
        var i, j :| 0 <= i < j < |b| && WalletKey(b[i]) == key == WalletKey(b[j]);
        assert WalletKey(a[i]) == key;
      }
      if key == WalletKey(wallets[n]) && key in Keys(a) {
        var i :| 0 <= i < |a| && WalletKey(a[i]) == key;
        assert WalletKey(b[i]) == key == WalletKey(b[n]);
      }
      if Repeated(a, key) {
        var i, j :| 0 <= i < j < |a| && WalletKey(a[i]) == key == WalletKey(a[j]);
        assert WalletKey(b[i]) == key == WalletKey(b[j]);
      }
    }
  }

  lemma {:induction false} NothingRepeated(wallets: seq<string>)
    ensures (forall key :: !Repeated(wallets, key)) <==> UniqueKeys(wallets)
  {
    hide WalletKey;
    if forall key :: !Repeated(wallets, key) {
      forall i, j | 0 <= i < j < |wallets| ensures WalletKey(wallets[i]) != WalletKey(wallets[j]) {
        assert !Repeated(wallets, WalletKey(wallets[i]));
      }
    }
  }

  // ---------------------------------------------------------------------------------------
  // The reconciliation
  // ---------------------------------------------------------------------------------------

  ghost predicate Admissible(wallets: seq<string>) { NoBlank(wallets) && UniqueKeys(wallets) }

  method Reconcile(db: seq<CreditLine>, chain: seq<ChainRecord>) returns (report: Report)
    ensures report.totalChecked == if |db| < |chain| then |chain| else |db|
    ensures report.errors == [] <==> Admissible(DbWallets(db)) && Admissible(ChainWallets(chain))
    ensures report.mismatches == if report.errors == [] then AllMismatches(db, chain) else []
    ensures report.errors == [] && report.mismatches == [] <==> Reconciled(db, chain)
    ensures NoBlank(DbWallets(db)) && NoBlank(ChainWallets(chain)) ==>
              forall w :: (DuplicateDb(w) in report.errors <==> Repeated(DbWallets(db), w))
                       && (DuplicateChain(w) in report.errors <==> Repeated(ChainWallets(chain), w))
  {
    hide NoBlank, UniqueKeys, Repeated, WalletKey, CompareFields, AllMismatches;
    var total := if |db| < |chain| then |chain| else |db|;
    var duplicateDb := FindDuplicateWallets(DbWallets(db));
    var duplicateChain := FindDuplicateWallets(ChainWallets(chain));
    if duplicateDb.None? || duplicateChain.None? {
      return Report(total, [], [EmptyWallet]);
    }
    var errors := PushDuplicates(duplicateDb.value, duplicateChain.value);
    if |errors| > 0 {
      return Report(total, [], errors);
    }
    var mismatches := CollectMismatches(db, chain);
    CleanIff(db, chain);
    return Report(total, mismatches, []);
  }

  method PushDuplicates(inDb: seq<string>, onChain: seq<string>) returns (errors: seq<Failure>)
    ensures errors == [] <==> inDb == [] && onChain == []
    ensures forall w :: DuplicateDb(w) in errors <==> w in inDb
    ensures forall w :: DuplicateChain(w) in errors <==> w in onChain
  {
    errors := [];
    for i := 0 to |inDb|
      invariant |errors| == i
      invariant forall w :: DuplicateDb(w) in errors <==> w in inDb[..i]
      invariant forall w :: DuplicateChain(w) !in errors
    {
      errors := errors + [DuplicateDb(inDb[i])];
      assert inDb[..i + 1] == inDb[..i] + [inDb[i]];
    }
    assert inDb[..|inDb|] == inDb;
    for i := 0 to |onChain|
      invariant |errors| == |inDb| + i
      invariant forall w :: DuplicateDb(w) in errors <==> w in inDb
      invariant forall w :: DuplicateChain(w) in errors <==> w in onChain[..i]
    {
      errors := errors + [DuplicateChain(onChain[i])];
      assert onChain[..i + 1] == onChain[..i] + [onChain[i]];
    }
    assert onChain[..|onChain|] == onChain;
  }

  /** The two passes over the two lists. */
  method CollectMismatches(db: seq<CreditLine>, chain: seq<ChainRecord>) returns (mismatches: seq<Mismatch>)
    ensures mismatches == AllMismatches(db, chain)
  {
    hide CompareFields, WalletKey;
    var chainMap := ChainMap(chain);
    var dbKeys := Keys(DbWallets(db));
    mismatches := [];
    for i := 0 to |db|
      invariant mismatches == DbPass(db[..i], chainMap)
    {
      assert db[..i + 1][..i] == db[..i];
      var key := WalletKey(db[i].walletAddress);
      if key !in chainMap {
        mismatches := mismatches + [Mismatch(db[i].id, db[i].walletAddress, Existence, Exists, Missing, Critical)];
      } else {
        mismatches := mismatches + CompareFields(db[i], chainMap[key]);
      }
    }
    assert db[..|db|] == db;
    for i := 0 to |chain|
      invariant mismatches == DbPass(db, chainMap) + ChainPass(chain[..i], dbKeys)
    {
      assert chain[..i + 1][..i] == chain[..i];
      if WalletKey(chain[i].walletAddress) !in dbKeys {
        mismatches := mismatches
                      + [Mismatch(chain[i].id, chain[i].walletAddress, Existence, Missing, Exists, Critical)];
      }
    }
    assert chain[..|chain|] == chain;
  }

  // ---------------------------------------------------------------------------------------
  // What the report says
  // ---------------------------------------------------------------------------------------

  lemma {:induction false} FrontWallets(chain: seq<ChainRecord>)
    requires chain != []
    ensures var w, v := ChainWallets(chain), ChainWallets(chain[..|chain| - 1]);
            && v == w[..|v|] && |w| == |v| + 1
            && (UniqueKeys(w) ==> UniqueKeys(v))
            && Keys(w) == Keys(v) + {WalletKey(chain[|chain| - 1].walletAddress)}
  {
    hide WalletKey;
    var w, v := ChainWallets(chain), ChainWallets(chain[..|chain| - 1]);
    assert v == w[..|v|] && w[..|v| + 1] == w;
    SeenStep(w, |v|);
  }

  lemma {:induction false} ChainMapKeys(chain: seq<ChainRecord>)
    ensures ChainMap(chain).Keys == Keys(ChainWallets(chain))
  {
    hide WalletKey, Keys, ChainWallets;
    if chain == [] {
      NoKeys(chain);
    } else {
      ChainMapKeys(chain[..|chain| - 1]);
      FrontWallets(chain);
    }
  }

  lemma {:induction false} NoKeys(chain: seq<ChainRecord>)
    requires chain == []
    ensures Keys(ChainWallets(chain)) == {}
  {
  }

  lemma {:induction false} ChainMapAt(chain: seq<ChainRecord>, k: nat)
    requires UniqueKeys(ChainWallets(chain)) && k < |chain|
    ensures WalletKey(chain[k].walletAddress) in ChainMap(chain)
    ensures ChainMap(chain)[WalletKey(chain[k].walletAddress)] == chain[k]
  {
    hide WalletKey, Keys;
    if k < |chain| - 1 {
      var w := ChainWallets(chain);
      assert WalletKey(w[k]) != WalletKey(w[|chain| - 1]);
      FrontWallets(chain);
      ChainMapAt(chain[..|chain| - 1], k);
    }
  }

  lemma {:induction false} ChainMapFinds(chain: seq<ChainRecord>)
    requires UniqueKeys(ChainWallets(chain))
    ensures ChainMap(chain).Keys == Keys(ChainWallets(chain))
    ensures forall k :: 0 <= k < |chain| ==>
              && WalletKey(chain[k].walletAddress) in ChainMap(chain)
              && ChainMap(chain)[WalletKey(chain[k].walletAddress)] == chain[k]
  {
    hide WalletKey, Keys, ChainMap, ChainWallets;
    ChainMapKeys(chain);
    forall k | 0 <= k < |chain|
      ensures WalletKey(chain[k].walletAddress) in ChainMap(chain)
      ensures ChainMap(chain)[WalletKey(chain[k].walletAddress)] == chain[k]
    {
      ChainMapAt(chain, k);
    }
  }

  lemma {:induction false} InDbPass(db: seq<CreditLine>, chainMap: map<string, ChainRecord>, m: Mismatch)
    ensures m in DbPass(db, chainMap) <==> exists k :: 0 <= k < |db| && m in CheckLine(db[k], chainMap)
  {
    hide CheckLine;
    if db != [] {
      var front := db[..|db| - 1];
      InDbPass(front, chainMap, m);
      assert forall k :: 0 <= k < |front| ==> front[k] == db[k];
    }
  }

  lemma {:induction false} InChainPass(chain: seq<ChainRecord>, dbKeys: set<string>, m: Mismatch)
    ensures m in ChainPass(chain, dbKeys) <==> exists k :: 0 <= k < |chain| && m in CheckRecord(chain[k], dbKeys)
  {
    hide CheckRecord;
    if chain != [] {
      var front := chain[..|chain| - 1];
      InChainPass(front, dbKeys, m);
      assert forall k :: 0 <= k < |front| ==> front[k] == chain[k];
    }
  }

  /** A mismatch is reported exactly when some database line lacks a partner or disagrees with
      it, or some on-chain record lacks a partner. */
  lemma {:induction false} Reported(db: seq<CreditLine>, chain: seq<ChainRecord>, m: Mismatch)
    ensures m in AllMismatches(db, chain)
            <==> || (exists k :: 0 <= k < |db| && m in CheckLine(db[k], ChainMap(chain)))
                 || (exists k :: 0 <= k < |chain| && m in CheckRecord(chain[k], Keys(DbWallets(db))))
  {
    hide CheckLine, CheckRecord;
    InDbPass(db, ChainMap(chain), m);
    InChainPass(chain, Keys(DbWallets(db)), m);
  }

  /** Equal figures: the same number, or the same text where one denotes no number. */
  ghost predicate SameFigure(a: string, b: string) {
    if NumberOf(a).Some? && NumberOf(b).Some? then NumberOf(a) == NumberOf(b) else a == b
  }

  ghost predicate Agree(l: CreditLine, c: ChainRecord) {
    && l.walletAddress == c.walletAddress
    && SameFigure(l.creditLimit, c.creditLimit)
    && SameFigure(l.availableCredit, c.availableCredit)
    && l.interestRateBps == c.interestRateBps
    && l.status == c.status
  }

  lemma {:induction false} NothingToReport(l: CreditLine, c: ChainRecord)
    requires WalletKey(l.walletAddress) == WalletKey(c.walletAddress)
    ensures CompareFields(l, c) == [] <==> Agree(l, c)
  {
    hide DecimalStringsEqual, SameFigure, WalletKey;
    ComparisonIsSameFigure(l.creditLimit, c.creditLimit);
    ComparisonIsSameFigure(l.availableCredit, c.availableCredit);
  }

  lemma {:induction false} ComparisonIsSameFigure(a: string, b: string)
    ensures DecimalStringsEqual(a, b) <==> SameFigure(a, b)
  {
    ComparisonIsNumeric(a, b);
  }

  ghost predicate Paired(l: CreditLine, c: ChainRecord) {
    WalletKey(l.walletAddress) == WalletKey(c.walletAddress)
  }

  /** Some record of the same wallet agrees with the line. */
  ghost predicate HasPartner(l: CreditLine, chain: seq<ChainRecord>) {
    exists k :: 0 <= k < |chain| && Paired(l, chain[k]) && Agree(l, chain[k])
  }

  ghost predicate Reconciled(db: seq<CreditLine>, chain: seq<ChainRecord>) {
    && Admissible(DbWallets(db)) && Admissible(ChainWallets(chain))
    && Keys(DbWallets(db)) == Keys(ChainWallets(chain))
    && (forall i, k :: 0 <= i < |db| && 0 <= k < |chain| && Paired(db[i], chain[k]) ==> Agree(db[i], chain[k]))
  }

  lemma {:induction false} LineIsClean(db: seq<CreditLine>, chain: seq<ChainRecord>, i: nat)
    requires i < |db| && UniqueKeys(ChainWallets(chain))
    ensures CheckLine(db[i], ChainMap(chain)) == []
            <==> HasPartner(db[i], chain)
  {
    hide WalletKey, Agree, UniqueKeys, CompareFields, ChainMap;
    ChainMapFinds(chain);
    var key := WalletKey(db[i].walletAddress);
    if key in ChainMap(chain) {
      assert key in Keys(ChainWallets(chain));
      var k :| 0 <= k < |chain| && WalletKey(ChainWallets(chain)[k]) == key;
      assert Paired(db[i], chain[k]) && ChainMap(chain)[key] == chain[k];
      NothingToReport(db[i], chain[k]);
    }
  }

  lemma {:induction false} PassesAreEmpty(db: seq<CreditLine>, chain: seq<ChainRecord>)
    ensures AllMismatches(db, chain) == []
            <==> && (forall i :: 0 <= i < |db| ==> CheckLine(db[i], ChainMap(chain)) == [])
                 && (forall k :: 0 <= k < |chain| ==> CheckRecord(chain[k], Keys(DbWallets(db))) == [])
  {
    hide CheckLine, CheckRecord, AllMismatches, ChainMap, Keys;
    var all := AllMismatches(db, chain);
    if all == [] {
      forall i | 0 <= i < |db| ensures CheckLine(db[i], ChainMap(chain)) == [] {
        var found := CheckLine(db[i], ChainMap(chain));
        if found != [] { Reported(db, chain, found[0]); }
      }
      forall k | 0 <= k < |chain| ensures CheckRecord(chain[k], Keys(DbWallets(db))) == [] {
        var found := CheckRecord(chain[k], Keys(DbWallets(db)));
        if found != [] { Reported(db, chain, found[0]); }
      }
    } else {
      Reported(db, chain, all[0]);
    }
  }

  /** No errors and no mismatches exactly when both sides have non-blank, duplicate-free
      wallets, the same wallets, and every pair agrees on address text, limit, available
      credit, rate and status. */
  lemma {:induction false} CleanIff(db: seq<CreditLine>, chain: seq<ChainRecord>)
    requires Admissible(DbWallets(db)) && Admissible(ChainWallets(chain))
    ensures AllMismatches(db, chain) == [] <==> Reconciled(db, chain)
  {
    hide WalletKey, Agree, CheckLine, AllMismatches, ChainMap, NoBlank;
    PassesAreEmpty(db, chain);
    forall i | 0 <= i < |db|
      ensures CheckLine(db[i], ChainMap(chain)) == [] <==> HasPartner(db[i], chain)
    {
      LineIsClean(db, chain, i);
    }
    var dw, cw := DbWallets(db), ChainWallets(chain);
    if AllMismatches(db, chain) == [] {
      EverythingPairs(db, chain);
    }
    if Reconciled(db, chain) {
      forall i | 0 <= i < |db|
        ensures HasPartner(db[i], chain)
      {
        assert WalletKey(dw[i]) in Keys(cw);
        var k :| 0 <= k < |cw| && WalletKey(cw[k]) == WalletKey(dw[i]);
        assert Paired(db[i], chain[k]);
      }
      forall k | 0 <= k < |chain| ensures CheckRecord(chain[k], Keys(dw)) == [] {
        assert WalletKey(cw[k]) in Keys(cw);
      }
    }
  }

  lemma {:induction false} SameKeysIfPaired(db: seq<CreditLine>, chain: seq<ChainRecord>)
    requires forall i :: 0 <= i < |db| ==> HasPartner(db[i], chain)
    requires forall k :: 0 <= k < |chain| ==> CheckRecord(chain[k], Keys(DbWallets(db))) == []
    ensures Keys(DbWallets(db)) == Keys(ChainWallets(chain))
  {
    hide WalletKey, Agree;
    var dw, cw := DbWallets(db), ChainWallets(chain);
    forall key | key in Keys(dw) ensures key in Keys(cw) {
      var i :| 0 <= i < |dw| && WalletKey(dw[i]) == key;
      assert HasPartner(db[i], chain);
      var k :| 0 <= k < |chain| && Paired(db[i], chain[k]);
      assert WalletKey(cw[k]) == key;
    }
    forall key | key in Keys(cw) ensures key in Keys(dw) {
      var k :| 0 <= k < |cw| && WalletKey(cw[k]) == key;
      assert CheckRecord(chain[k], Keys(dw)) == [];
    }
  }

  lemma {:induction false} PartnerIsUnique(l: CreditLine, chain: seq<ChainRecord>, k: nat)
    requires UniqueKeys(ChainWallets(chain)) && HasPartner(l, chain) && k < |chain| && Paired(l, chain[k])
    ensures Agree(l, chain[k])
  {
    hide WalletKey, Agree;
    var cw := ChainWallets(chain);
    var k' :| 0 <= k' < |chain| && Paired(l, chain[k']) && Agree(l, chain[k']);
    assert WalletKey(cw[k]) == WalletKey(cw[k']);
  }

  lemma {:induction false} EverythingPairs(db: seq<CreditLine>, chain: seq<ChainRecord>)
    requires Admissible(DbWallets(db)) && Admissible(ChainWallets(chain))
    requires forall i :: 0 <= i < |db| ==> HasPartner(db[i], chain)
    requires forall k :: 0 <= k < |chain| ==> CheckRecord(chain[k], Keys(DbWallets(db))) == []
    ensures Reconciled(db, chain)
  {
    hide WalletKey, Agree, NoBlank, HasPartner, UniqueKeys, Keys, CheckRecord, Paired;
    SameKeysIfPaired(db, chain);
    forall i, k | 0 <= i < |db| && 0 <= k < |chain| && Paired(db[i], chain[k]) ensures Agree(db[i], chain[k]) {
      PartnerIsUnique(db[i], chain, k);
    }
  }

  /** Every reported mismatch: the wallet keys never differ, and an existence mismatch stands
      for a wallet on one side only. */
  lemma {:induction false} ExistenceIsSymmetricDifference(db: seq<CreditLine>, chain: seq<ChainRecord>, m: Mismatch)
    requires UniqueKeys(ChainWallets(chain)) && m in AllMismatches(db, chain)
    ensures m.field != WalletAddress
    ensures m.field == Existence ==>
              || (exists i ::
                    && 0 <= i < |db| && WalletKey(db[i].walletAddress) !in Keys(ChainWallets(chain))
                    && m == Mismatch(db[i].id, db[i].walletAddress, Existence, Exists, Missing, Critical))
              || (exists k ::
                    && 0 <= k < |chain| && WalletKey(chain[k].walletAddress) !in Keys(DbWallets(db))
                    && m == Mismatch(chain[k].id, chain[k].walletAddress, Existence, Missing, Exists, Critical))
  {
    hide WalletKey, UniqueKeys, AllMismatches, DecimalStringsEqual, ChainMap;
    Reported(db, chain, m);
    ChainMapFinds(chain);
    if i :| 0 <= i < |db| && m in CheckLine(db[i], ChainMap(chain)) {
      var key := WalletKey(db[i].walletAddress);
      if key in ChainMap(chain) {
        var k :| 0 <= k < |chain| && WalletKey(ChainWallets(chain)[k]) == key;
        assert ChainMap(chain)[key] == chain[k];
        PairMismatchFields(db[i], chain[k], m);
      }
    }
  }

  lemma {:induction false} PairMismatchFields(l: CreditLine, c: ChainRecord, m: Mismatch)
    requires Paired(l, c) && m in CompareFields(l, c)
    ensures m.field != WalletAddress && m.field != Existence
  {
    hide WalletKey, DecimalStringsEqual;
  }

  /** And every wallet on one side only is reported. */
  lemma {:induction false} MissingIsReported(db: seq<CreditLine>, chain: seq<ChainRecord>)
    requires UniqueKeys(ChainWallets(chain))
    ensures forall i :: 0 <= i < |db| && WalletKey(db[i].walletAddress) !in Keys(ChainWallets(chain)) ==>
              Mismatch(db[i].id, db[i].walletAddress, Existence, Exists, Missing, Critical) in AllMismatches(db, chain)
    ensures forall k :: 0 <= k < |chain| && WalletKey(chain[k].walletAddress) !in Keys(DbWallets(db)) ==>
              Mismatch(chain[k].id, chain[k].walletAddress, Existence, Missing, Exists, Critical)
              in AllMismatches(db, chain)
  {
    hide WalletKey, UniqueKeys, AllMismatches, CompareFields, ChainMap;
    ChainMapFinds(chain);
    forall i | 0 <= i < |db| && WalletKey(db[i].walletAddress) !in Keys(ChainWallets(chain))
      ensures Mismatch(db[i].id, db[i].walletAddress, Existence, Exists, Missing, Critical) in AllMismatches(db, chain)
    {
      var m := Mismatch(db[i].id, db[i].walletAddress, Existence, Exists, Missing, Critical);
      assert m in CheckLine(db[i], ChainMap(chain));
      Reported(db, chain, m);
    }
    forall k | 0 <= k < |chain| && WalletKey(chain[k].walletAddress) !in Keys(DbWallets(db))
      ensures Mismatch(chain[k].id, chain[k].walletAddress, Existence, Missing, Exists, Critical)
              in AllMismatches(db, chain)
    {
      var m := Mismatch(chain[k].id, chain[k].walletAddress, Existence, Missing, Exists, Critical);
      assert m in CheckRecord(chain[k], Keys(DbWallets(db)));
      Reported(db, chain, m);
    }
  }

  /** For a record whose available credit was computed on the chain side as limit minus
      utilized, the warning appears exactly when the database figure is not that number. */
  lemma {:induction false} AvailableCreditWarningIff(l: CreditLine, c: ChainRecord, utilized: string)
    requires ParseDecimal(c.creditLimit).Some? && ParseDecimal(utilized).Some?
    requires SubtractDecimalStrings(c.creditLimit, utilized) == Some(c.availableCredit)
    ensures NumberOf(c.creditLimit).Some? && NumberOf(utilized).Some?
    ensures (exists m :: m in CompareFields(l, c) && m.field == AvailableCredit)
            <==> NumberOf(l.availableCredit) != Some(NumberOf(c.creditLimit).value - NumberOf(utilized).value)
  {
    AvailableAgreesIff(l.availableCredit, c.creditLimit, utilized);
    AvailableIsOneOfFive(l, c);
  }

  lemma {:induction false} AvailableIsOneOfFive(l: CreditLine, c: ChainRecord)
    ensures (exists m :: m in CompareFields(l, c) && m.field == AvailableCredit)
            <==> !DecimalStringsEqual(l.availableCredit, c.availableCredit)
  {
    hide DecimalStringsEqual, WalletKey;
    if !DecimalStringsEqual(l.availableCredit, c.availableCredit) {
      assert Mismatch(l.id, l.walletAddress, AvailableCredit, Text(l.availableCredit), Text(c.availableCredit), Warning)
             in CompareFields(l, c);
    }
  }

  /** Each field of a pair is reported, with both sides' values in their places and its own
      severity, exactly when the sides disagree on it. */
  lemma {:induction false} FieldsReportedIff(l: CreditLine, c: ChainRecord)
    requires Paired(l, c)
    ensures Mismatch(l.id, l.walletAddress, CreditLimit, Text(l.creditLimit), Text(c.creditLimit), Critical)
            in CompareFields(l, c)
            <==> !SameFigure(l.creditLimit, c.creditLimit)
    ensures Mismatch(l.id, l.walletAddress, AvailableCredit, Text(l.availableCredit), Text(c.availableCredit), Warning)
            in CompareFields(l, c)
            <==> !SameFigure(l.availableCredit, c.availableCredit)
    ensures Mismatch(l.id, l.walletAddress, InterestRateBps,
                     Number(l.interestRateBps), Number(c.interestRateBps), Warning)
            in CompareFields(l, c)
            <==> l.interestRateBps != c.interestRateBps
    ensures Mismatch(l.id, l.walletAddress, Status, Text(l.status), Text(c.status), Critical) in CompareFields(l, c)
            <==> l.status != c.status
    ensures Mismatch(l.id, WalletKey(l.walletAddress), WalletAddressFormatting,
                     Text(l.walletAddress), Text(c.walletAddress), Warning)
            in CompareFields(l, c)
            <==> l.walletAddress != c.walletAddress
  {
    hide DecimalStringsEqual, SameFigure, WalletKey;
    ComparisonIsSameFigure(l.creditLimit, c.creditLimit);
    ComparisonIsSameFigure(l.availableCredit, c.availableCredit);
  }

  ghost function Rank(f: Field): int {
    match f
    case Existence => 0
    case WalletAddress => 1
    case WalletAddressFormatting => 1
    case CreditLimit => 2
    case AvailableCredit => 3
    case InterestRateBps => 4
    case Status => 5
  }

  ghost predicate Ranked(ms: seq<Mismatch>, low: int, high: int) {
    && (forall k :: 0 <= k < |ms| ==> low <= Rank(ms[k].field) < high)
    && (forall i, j :: 0 <= i < j < |ms| ==> Rank(ms[i].field) < Rank(ms[j].field))
  }

  lemma {:induction false} RankedJoin(a: seq<Mismatch>, b: seq<Mismatch>, low: int, mid: int, high: int)
    requires Ranked(a, low, mid) && Ranked(b, mid, high) && low <= mid <= high
    ensures Ranked(a + b, low, high)
  {
    hide Rank;
  }

  lemma {:induction false} RankedIf(condition: bool, m: Mismatch, high: int)
    requires Rank(m.field) == high - 1
    ensures Ranked(If(condition, m), high - 1, high)
  {
  }

  /** A pair is reported field by field in the order of comparison: no field twice, existence
      never. */
  lemma {:induction false} FieldsReportedOnce(l: CreditLine, c: ChainRecord)
    ensures Ranked(CompareFields(l, c), 1, 6)
  {
    hide DecimalStringsEqual, WalletKey, Ranked, If;
    var limit := Mismatch(l.id, l.walletAddress, CreditLimit, Text(l.creditLimit), Text(c.creditLimit), Critical);
    var available :=
      Mismatch(l.id, l.walletAddress, AvailableCredit, Text(l.availableCredit), Text(c.availableCredit), Warning);
    var rate := Mismatch(l.id, l.walletAddress, InterestRateBps,
                         Number(l.interestRateBps), Number(c.interestRateBps), Warning);
    var status := Mismatch(l.id, l.walletAddress, Status, Text(l.status), Text(c.status), Critical);
    var a := If(!DecimalStringsEqual(l.creditLimit, c.creditLimit), limit);
    var b := If(!DecimalStringsEqual(l.availableCredit, c.availableCredit), available);
    var d, e := If(l.interestRateBps != c.interestRateBps, rate), If(l.status != c.status, status);
    WalletsReportedOnce(l, c);
    RankedIf(!DecimalStringsEqual(l.creditLimit, c.creditLimit), limit, 3);
    RankedIf(!DecimalStringsEqual(l.availableCredit, c.availableCredit), available, 4);
    RankedIf(l.interestRateBps != c.interestRateBps, rate, 5);
    RankedIf(l.status != c.status, status, 6);
    RankedJoin(CompareWallets(l, c), a, 1, 2, 3);
    RankedJoin(CompareWallets(l, c) + a, b, 1, 3, 4);
    RankedJoin(CompareWallets(l, c) + a + b, d, 1, 4, 5);
    RankedJoin(CompareWallets(l, c) + a + b + d, e, 1, 5, 6);
  }

  lemma {:induction false} WalletsReportedOnce(l: CreditLine, c: ChainRecord)
    ensures Ranked(CompareWallets(l, c), 1, 2)
  {
    hide WalletKey;
  }
}
