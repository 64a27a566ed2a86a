/**
 * `compare_records` of src/app/services.py: the two loaded ledgers are
 * indexed by provider id, the ids present in both are walked in ascending
 * order, and for each one a match records both amounts, their net
 * difference and a label; the matches whose difference exceeds the
 * tolerance are also listed as differences, and each ledger is totalled.
 *
 * `Reconcile` is the walk of `compare_records` over the common ids and
 * `CompareRecords` the whole of `compare_records`; both are proved equal to
 * the specification function `Comparison`, and the lemmas state what
 * `Comparison` promises in terms of the ledgers and of the rows.
 */
module Reconciler {
  import opened Strings
  import opened Ledgers
  import opened Normalizers

  /** The observation of a match: which ledger holds more, or neither. */
  datatype Observation = ExcessInDdp | ExcessInBalance | Balanced

  /** The text the application shows for an observation. */
  function Label(o: Observation): (s: string)
    ensures s != []
  {
    match o
    case ExcessInDdp => "De más en DDP"
    case ExcessInBalance => "De más en BALANCE"
    case Balanced => "Equilibrado"
  }

  /** The three observations are shown with three different texts. */
  lemma LabelDistinguishes(o: Observation, p: Observation)
    ensures Label(o) == Label(p) <==> o == p
  {
    if o != p {
      assert Label(o)[0] != Label(p)[0] || Label(o)[10] != Label(p)[10];
    }
  }

  /** One entry of `matches` (and of `differences`). */
  datatype MatchRecord = MatchRecord(
    providerId: string,
    providerName: string,
    balanceAmount: real,
    ddpAmount: real,
    difference: real,
    observation: Observation)

  /** The `totals` dictionary: the sum of each ledger's amounts. */
  datatype Totals = Totals(balance: real, ddp: real)

  /** `ComparisonResult`. */
  datatype ComparisonResult = ComparisonResult(
    matches: seq<MatchRecord>,
    differences: seq<MatchRecord>,
    onlyInBalance: seq<ProviderRecord>,
    onlyInDdp: seq<ProviderRecord>,
    totals: Totals)

  /** A difference is listed when its magnitude exceeds this tolerance. */
  const TOLERANCE: real := 0.0001

  function Abs(x: real): (r: real)
    ensures r >= 0.0 && (r == x || r == -x)
  {
    if x < 0.0 then -x else x
  }

  /** The observation of a net difference, by its strict sign. */
  function Classify(diff: real): (o: Observation)
    ensures o == ExcessInDdp <==> diff > 0.0
    ensures o == ExcessInBalance <==> diff < 0.0
    ensures o == Balanced <==> diff == 0.0
  {
    if diff > 0.0 then ExcessInDdp else if diff < 0.0 then ExcessInBalance else Balanced
  }

  /**
   * The match of a Balance record and a DDP record of one id: the
   * difference is the sum of the two amounts, because DDP amounts come
   * positive and Balance amounts negative; the name is the Balance one
   * unless that is empty.
   */
  function MatchOf(b: ProviderRecord, d: ProviderRecord): (m: MatchRecord)
    ensures m.providerId == b.providerId && m.balanceAmount == b.amount && m.ddpAmount == d.amount
    ensures m.difference == m.ddpAmount + m.balanceAmount
    ensures m.providerName == if b.providerName != "" then b.providerName else d.providerName
    ensures m.providerName == "" <==> b.providerName == "" && d.providerName == ""
    ensures m.observation == Classify(m.difference)
  {
    var diff := d.amount + b.amount;
    MatchRecord(b.providerId, if b.providerName != "" then b.providerName else d.providerName,
      b.amount, d.amount, diff, Classify(diff))
  }

  /** `{record.provider_id: record for record in s}`: a later record of an id replaces an earlier one. */
  function ToMap(s: seq<ProviderRecord>): (m: map<string, ProviderRecord>)
    ensures m.Keys == Elems(Ids(s))
    ensures forall id | id in m :: m[id].providerId == id
  {
    if s == [] then map[]
    else
      var init := s[..|s| - 1];
      assert Ids(s) == Ids(init) + [s[|s| - 1].providerId];
      ElemsConcat(Ids(init), [s[|s| - 1].providerId]);
      ToMap(init)[s[|s| - 1].providerId := s[|s| - 1]]
  }

  /** The elements of `xs` that are in `keys`, in order. */
  function FilterIn(xs: seq<string>, keys: set<string>): (r: seq<string>)
    ensures Elems(r) == Elems(xs) * keys
  {
    if xs == [] then []
    else
      var init := FilterIn(xs[..|xs| - 1], keys);
      assert xs == xs[..|xs| - 1] + [xs[|xs| - 1]];
      ElemsConcat(xs[..|xs| - 1], [xs[|xs| - 1]]);
      if xs[|xs| - 1] in keys then
        ElemsConcat(init, [xs[|xs| - 1]]);
        init + [xs[|xs| - 1]]
      else init
  }

  /** `sorted(set(balance_map) & set(ddp_map))`. */
  function CommonIds(balance: seq<ProviderRecord>, ddp: seq<ProviderRecord>): (r: seq<string>)
    ensures StrictlySorted(r) && Elems(r) == Elems(Ids(balance)) * Elems(Ids(ddp))
  {
    SortedDistinct(FilterIn(Ids(balance), Elems(Ids(ddp))))
  }

  /** The match of each id of `ids`, from the two indexes. */
  function MatchesOf(ids: seq<string>, bm: map<string, ProviderRecord>, dm: map<string, ProviderRecord>): (ms: seq<MatchRecord>)
    requires forall k | 0 <= k < |ids| :: ids[k] in bm && ids[k] in dm
    ensures |ms| == |ids|
  {
    seq(|ids|, k requires 0 <= k < |ids| => MatchOf(bm[ids[k]], dm[ids[k]]))
  }

  lemma MatchesOfAppend(ids: seq<string>, k: nat, bm: map<string, ProviderRecord>, dm: map<string, ProviderRecord>)
    requires forall k | 0 <= k < |ids| :: ids[k] in bm && ids[k] in dm
    requires k < |ids|
    ensures MatchesOf(ids[..k + 1], bm, dm) == MatchesOf(ids[..k], bm, dm) + [MatchOf(bm[ids[k]], dm[ids[k]])]
  {
  }

  /** The matches whose difference exceeds the tolerance, in order. */
  function AboveTolerance(ms: seq<MatchRecord>): (r: seq<MatchRecord>)
    ensures |r| <= |ms| && forall k | 0 <= k < |r| :: Abs(r[k].difference) > TOLERANCE
  {
    if ms == [] then []
    else (if Abs(ms[0].difference) > TOLERANCE then [ms[0]] else []) + AboveTolerance(ms[1..])
  }

  /** The common ids are in both indexes. */
  lemma CommonIdsIndexed(balance: seq<ProviderRecord>, ddp: seq<ProviderRecord>)
    ensures var ids := CommonIds(balance, ddp);
      forall k | 0 <= k < |ids| :: ids[k] in ToMap(balance) && ids[k] in ToMap(ddp)
  {
    var ids := CommonIds(balance, ddp);
    forall k | 0 <= k < |ids| ensures ids[k] in Elems(Ids(balance)) && ids[k] in Elems(Ids(ddp)) {
      assert ids[k] in Elems(ids);
    }
  }

  /** What `compare_records` returns for two loaded ledgers. */
  function Comparison(balance: seq<ProviderRecord>, ddp: seq<ProviderRecord>): (r: ComparisonResult)
    ensures r.onlyInBalance == [] && r.onlyInDdp == []
    ensures |r.matches| == |CommonIds(balance, ddp)| && |r.differences| <= |r.matches|
    ensures forall k | 0 <= k < |r.differences| :: Abs(r.differences[k].difference) > TOLERANCE
    ensures r.totals == Totals(Total(balance), Total(ddp))
  {
    CommonIdsIndexed(balance, ddp);
    var ms := MatchesOf(CommonIds(balance, ddp), ToMap(balance), ToMap(ddp));
    ComparisonResult(ms, AboveTolerance(ms), [], [], Totals(Total(balance), Total(ddp)))
  }

  lemma {:induction false} AboveToleranceAppend(ms: seq<MatchRecord>, m: MatchRecord)
    ensures AboveTolerance(ms + [m]) == AboveTolerance(ms) + (if Abs(m.difference) > TOLERANCE then [m] else [])
  {
    if ms != [] {
      assert (ms + [m])[1..] == ms[1..] + [m];
      AboveToleranceAppend(ms[1..], m);
    } else {
      assert [m][1..] == [];
    }
  }

  /** The loop of `compare_records` over two loaded ledgers. */
  method Reconcile(balance: seq<ProviderRecord>, ddp: seq<ProviderRecord>) returns (result: ComparisonResult)
    ensures result == Comparison(balance, ddp)
    ensures result.onlyInBalance == [] && result.onlyInDdp == []
  {
    var balanceMap := ToMap(balance);
    var ddpMap := ToMap(ddp);
    var matches: seq<MatchRecord> := [];
    var differences: seq<MatchRecord> := [];
    var common := CommonIds(balance, ddp);
    CommonIdsIndexed(balance, ddp);
    for i := 0 to |common|
      invariant matches == MatchesOf(common[..i], balanceMap, ddpMap)
      invariant differences == AboveTolerance(matches)
    {
      var record := MatchOf(balanceMap[common[i]], ddpMap[common[i]]);
      MatchesOfAppend(common, i, balanceMap, ddpMap);
      AboveToleranceAppend(matches, record);
      matches := matches + [record];
      if Abs(record.difference) > TOLERANCE {
        differences := differences + [record];
      }
    }
    assert common[..|common|] == common;
    result := ComparisonResult(matches, differences, [], [], Totals(Total(balance), Total(ddp)));
  }

  /** `compare_records`: both loaders, then the reconciliation of their records. */
  method CompareRecords(balanceRows: seq<BalanceRow>, ddpRows: seq<DdpRow>) returns (result: ComparisonResult)
    ensures result == Comparison(BalanceRecords(balanceRows), DdpRecords(ddpRows))
  {
    var balance := LoadBalanceRecords(balanceRows);
    var ddp := LoadDdpRecords(ddpRows);
    result := Reconcile(balance, ddp);
  }

  // ---------------------------------------------------------------- properties

  /** The provider ids of a list of matches, in order. */
  function MatchIds(ms: seq<MatchRecord>): (ids: seq<string>)
    ensures |ids| == |ms| && forall k | 0 <= k < |ms| :: ids[k] == ms[k].providerId
  {
    seq(|ms|, k requires 0 <= k < |ms| => ms[k].providerId)
  }

  lemma MatchIdsOf(ids: seq<string>, bm: map<string, ProviderRecord>, dm: map<string, ProviderRecord>)
    requires forall k | 0 <= k < |ids| :: ids[k] in bm && ids[k] in dm
    requires forall id | id in bm :: bm[id].providerId == id
    ensures MatchIds(MatchesOf(ids, bm, dm)) == ids
  {
  }

  /**
   * The matches come in strictly ascending id order and hold exactly the
   * ids present in both ledgers.
   */
  lemma ComparisonIds(balance: seq<ProviderRecord>, ddp: seq<ProviderRecord>)
    ensures var ids := MatchIds(Comparison(balance, ddp).matches);
      && StrictlySorted(ids)
      && forall id :: (id in ids <==> id in Ids(balance) && id in Ids(ddp))
  {
    CommonIdsIndexed(balance, ddp);
    var common := CommonIds(balance, ddp);
    MatchIdsOf(common, ToMap(balance), ToMap(ddp));
    assert forall id :: (id in common <==> id in Elems(common));
  }

  /** With unique ids, the index maps each record's id to that record. */
  lemma {:induction false} ToMapUnique(s: seq<ProviderRecord>, k: nat)
    requires UniqueIds(s) && k < |s|
    ensures ToMap(s)[s[k].providerId] == s[k]
  {
    var init := s[..|s| - 1];
    if k < |init| {
      assert UniqueIds(init) by {
        forall a, b | 0 <= a < b < |init| ensures init[a].providerId != init[b].providerId {
          assert init[a] == s[a] && init[b] == s[b];
        }
      }
      ToMapUnique(init, k);
      assert init[k] == s[k];
    }
  }

  /** `m` is the match of a record of `balance` and a record of `ddp` with the same id. */
  predicate MatchedPair(balance: seq<ProviderRecord>, ddp: seq<ProviderRecord>, m: MatchRecord)
  {
    exists i, j | 0 <= i < |balance| && 0 <= j < |ddp| ::
      balance[i].providerId == ddp[j].providerId && m == MatchOf(balance[i], ddp[j])
  }

  /** Every match pairs the Balance record and the DDP record of its id. */
  lemma ComparisonMatchesArePairs(balance: seq<ProviderRecord>, ddp: seq<ProviderRecord>)
    requires UniqueIds(balance) && UniqueIds(ddp)
    ensures var ms := Comparison(balance, ddp).matches;
      forall k | 0 <= k < |ms| :: MatchedPair(balance, ddp, ms[k])
  {
    CommonIdsIndexed(balance, ddp);
    var common := CommonIds(balance, ddp);
    var bm, dm := ToMap(balance), ToMap(ddp);
    var ms := Comparison(balance, ddp).matches;
    forall k | 0 <= k < |ms| ensures MatchedPair(balance, ddp, ms[k]) {
      var id := common[k];
      assert id in Elems(Ids(balance)) && id in Elems(Ids(ddp));
      var i :| 0 <= i < |balance| && Ids(balance)[i] == id;
      var j :| 0 <= j < |ddp| && Ids(ddp)[j] == id;
      ToMapUnique(balance, i);
      ToMapUnique(ddp, j);
      assert ms[k] == MatchOf(balance[i], ddp[j]);
    }
  }

  /** Every Balance record and DDP record with the same id give a match. */
  lemma ComparisonPairsAreMatches(balance: seq<ProviderRecord>, ddp: seq<ProviderRecord>, i: nat, j: nat)
    requires UniqueIds(balance) && UniqueIds(ddp)
    requires i < |balance| && j < |ddp| && balance[i].providerId == ddp[j].providerId
    ensures MatchOf(balance[i], ddp[j]) in Comparison(balance, ddp).matches
  {
    var id := balance[i].providerId;
    CommonIdsIndexed(balance, ddp);
    var common := CommonIds(balance, ddp);
    assert Ids(balance)[i] == id && Ids(ddp)[j] == id;
    assert id in Elems(common);
    var k :| 0 <= k < |common| && common[k] == id;
    ToMapUnique(balance, i);
    ToMapUnique(ddp, j);
    var ms := Comparison(balance, ddp).matches;
    assert ms[k] == MatchOf(balance[i], ddp[j]);
  }

  /** The differences are the matches beyond the tolerance, in the order of the matches. */
  lemma {:induction false} AboveToleranceSpec(ms: seq<MatchRecord>)
    ensures forall m :: (m in AboveTolerance(ms) <==> m in ms && Abs(m.difference) > TOLERANCE)
    ensures IsSubsequence(AboveTolerance(ms), ms)
  {
    if ms != [] {
      AboveToleranceSpec(ms[1..]);
      assert ms == [ms[0]] + ms[1..];
      if Abs(ms[0].difference) > TOLERANCE {
        assert AboveTolerance(ms) == [ms[0]] + AboveTolerance(ms[1..]);
        assert AboveTolerance(ms)[1..] == AboveTolerance(ms[1..]);
      } else {
        assert AboveTolerance(ms) == AboveTolerance(ms[1..]);
        SubsequenceSkip(AboveTolerance(ms[1..]), ms);
      }
    }
  }

  /** A subsequence of the tail is a subsequence of the whole. */
  lemma {:induction false} SubsequenceSkip<T>(a: seq<T>, b: seq<T>)
    requires b != [] && IsSubsequence(a, b[1..])
    ensures IsSubsequence(a, b)
    decreases |a| + |b|
  {
    if a != [] && a[0] == b[0] {
      SubsequenceDrop(a, b[1..]);
    }
  }

  /** Dropping the head of `a` keeps it a subsequence. */
  lemma {:induction false} SubsequenceDrop<T>(a: seq<T>, b: seq<T>)
    requires a != [] && IsSubsequence(a, b)
    ensures IsSubsequence(a[1..], b)
    decreases |a| + |b|
  {
    if b != [] {
      if a[0] == b[0] {
        SubsequenceSkip(a[1..], b);
      } else {
        SubsequenceDrop(a, b[1..]);
        SubsequenceSkip(a[1..], b);
      }
    }
  }

  /**
   * A net difference that is not zero but within the tolerance, on either
   * side, is labelled as an excess, yet the match is not listed among the
   * differences.
   */
  lemma SmallDifferenceNotListed(b: ProviderRecord, d: ProviderRecord)
    requires 0.0 < Abs(d.amount + b.amount) <= TOLERANCE
    ensures MatchOf(b, d).observation != Balanced
    ensures MatchOf(b, d).observation == (if d.amount + b.amount > 0.0 then ExcessInDdp else ExcessInBalance)
    ensures AboveTolerance([MatchOf(b, d)]) == []
  {
  }

  /** DDP 100 against Balance -100.0001 nets exactly -0.0001: an excess in Balance, not listed. */
  lemma BoundaryDifferenceNotListed()
    ensures var m := MatchOf(ProviderRecord("0001", "", -100.0001), ProviderRecord("0001", "", 100.0));
      m.observation == ExcessInBalance && AboveTolerance([m]) == []
  {
    SmallDifferenceNotListed(ProviderRecord("0001", "", -100.0001), ProviderRecord("0001", "", 100.0));
  }

  /** `compare_records` in terms of the rows: a match for exactly the ids a row of each sheet normalises to. */
  lemma CompareRecordsIds(balanceRows: seq<BalanceRow>, ddpRows: seq<DdpRow>)
    ensures var ids := MatchIds(Comparison(BalanceRecords(balanceRows), DdpRecords(ddpRows)).matches);
      && StrictlySorted(ids)
      && forall id :: (id in ids <==> SomeBalanceRow(balanceRows, id) && SomeDdpRow(ddpRows, id))
  {
    BalanceRecordsIds(balanceRows);
    DdpRecordsIds(ddpRows);
    ComparisonIds(BalanceRecords(balanceRows), DdpRecords(ddpRows));
  }

  /** The DDP total is the sum of the cleaned amounts of every DDP row with an id. */
  lemma CompareRecordsDdpTotal(balanceRows: seq<BalanceRow>, ddpRows: seq<DdpRow>)
    ensures Comparison(BalanceRecords(balanceRows), DdpRecords(ddpRows)).totals.ddp == Total(DdpEntries(ddpRows))
  {
    DdpTotal(ddpRows);
  }

  /** The Balance total of the result runs over every loaded Balance record. */
  lemma CompareRecordsBalanceTotal(balanceRows: seq<BalanceRow>, ddpRows: seq<DdpRow>)
    ensures Comparison(BalanceRecords(balanceRows), DdpRecords(ddpRows)).totals.balance == Total(BalanceRecords(balanceRows))
  {
  }

  /** Row `i` is the first Balance row of `id`, and `amount` is its cleaned amount. */
  predicate FirstBalanceAmount(rows: seq<BalanceRow>, id: string, i: int, amount: real)
  {
    && 0 <= i < |rows| && BalanceEntry(rows[i]).Some?
    && FirstRowFor(rows, i, BalanceEntry(rows[i]).value)
    && BalanceEntry(rows[i]).value.providerId == id
    && CleanAmount(rows[i].amount) == amount
  }

  /** Each Balance record carries the cleaned amount of the first row of its id. */
  lemma BalanceRecordAmount(rows: seq<BalanceRow>, i: nat)
    requires i < |BalanceRecords(rows)|
    ensures var r := BalanceRecords(rows)[i];
      exists n | 0 <= n < |rows| :: FirstBalanceAmount(rows, r.providerId, n, r.amount)
  {
    var idx := BalanceFirstRows(rows);
    var r := BalanceRecords(rows)[i];
    assert FirstRowFor(rows, idx[i], r);
    assert FirstBalanceAmount(rows, r.providerId, idx[i], r.amount);
  }

  /** Each DDP record carries the sum of the cleaned amounts of the rows of its id. */
  lemma DdpRecordAmount(rows: seq<DdpRow>, j: nat)
    requires j < |DdpRecords(rows)|
    ensures DdpRecords(rows)[j].amount == SumFor(DdpEntries(rows), DdpRecords(rows)[j].providerId)
  {
  }

  /**
   * The amounts of each match, in terms of the rows: the Balance amount is
   * the cleaned amount of the first Balance row of the id, and the DDP
   * amount is the sum of the cleaned amounts of every DDP row of the id.
   */
  lemma CompareRecordsAmounts(balanceRows: seq<BalanceRow>, ddpRows: seq<DdpRow>, k: nat)
    requires k < |Comparison(BalanceRecords(balanceRows), DdpRecords(ddpRows)).matches|
    ensures var m := Comparison(BalanceRecords(balanceRows), DdpRecords(ddpRows)).matches[k];
      && m.ddpAmount == SumFor(DdpEntries(ddpRows), m.providerId)
      && m.ddpAmount == RowsSumFor(ddpRows, m.providerId)
      && exists i | 0 <= i < |balanceRows| :: FirstBalanceAmount(balanceRows, m.providerId, i, m.balanceAmount)
  {
    var balance, ddp := BalanceRecords(balanceRows), DdpRecords(ddpRows);
    BalanceRecordsUnique(balanceRows);
    DdpRecordsIds(ddpRows);
    ComparisonMatchesArePairs(balance, ddp);
    var m := Comparison(balance, ddp).matches[k];
    assert MatchedPair(balance, ddp, m);
    var i, j :| 0 <= i < |balance| && 0 <= j < |ddp| && balance[i].providerId == ddp[j].providerId
      && m == MatchOf(balance[i], ddp[j]);
    BalanceRecordAmount(balanceRows, i);
    DdpRecordAmount(ddpRows, j);
    SumForRows(ddpRows, m.providerId);
  }
}
