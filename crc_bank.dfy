/** The allocation ledger: the proposal table (one row per account) and the
    investment table, and the command branches that read, check and rewrite them.

    Every command first runs its validations in order; the first one that fails ends
    the command with its reason and nothing is written. Each command is specified by an
    outcome function over the tables as they were, and the method that performs it is
    proved to write exactly that outcome back. */
module CrcBank {
  import opened Text
  import opened Constants
  import opened Utils
  import opened Records

  /** What a check asks the outside world to do: mail the account owner or lock the account. */
  datatype Event = NotifySusLimit | LockAccount | ThreeMonthExpiryNotice | ProposalExpiredNotice

  /** How many days before the end of a proposal its owner is warned. */
  const EXPIRY_WARNING_DAYS := 90

  function AlreadyExistsMessage(account: string): string {
    "Proposal for account `" + account + "` already exists. Exiting..."
  }

  function AlreadyLockedMessage(account: string): string {
    "Skipping account " + account + " because it should have already been notified and locked"
  }

  ghost predicate ProposalsValid(proposals: map<string, Proposal>) {
    forall a :: a in proposals ==> ProposalValid(proposals[a])
  }

  /** The ledger invariant: every proposal valid (in particular at least 10000 SUs),
      every investment as the investor command wrote it and attached to a proposal. */
  ghost predicate LedgerValid(proposals: map<string, Proposal>, investments: seq<Investment>) {
    && ProposalsValid(proposals)
    && forall k :: 0 <= k < |investments| ==>
         InvestmentValid(investments[k]) && investments[k].account in proposals
  }

  /** Appending a valid investment row of an account with a proposal keeps the ledger valid. */
  lemma LedgerValidAppend(proposals: map<string, Proposal>, investments: seq<Investment>, inv: Investment)
    requires LedgerValid(proposals, investments)
    requires InvestmentValid(inv) && inv.account in proposals
    ensures LedgerValid(proposals, investments + [inv])
  {
    var after := investments + [inv];
    forall k | 0 <= k < |after|
      ensures InvestmentValid(after[k]) && after[k].account in proposals
    {
      if k < |investments| {
        assert after[k] == investments[k];
      }
    }
  }

  /** Writing a valid proposal row for an account keeps the ledger invariant: the investment
      rows still belong to accounts with a proposal. */
  lemma LedgerValidPut(proposals: map<string, Proposal>, investments: seq<Investment>, account: string, p: Proposal)
    requires LedgerValid(proposals, investments)
    requires ProposalValid(p)
    ensures LedgerValid(proposals[account := p], investments)
  {
    var after := proposals[account := p];
    forall k | 0 <= k < |investments|
      ensures investments[k].account in after
    {
    }
  }

  /** A command that writes `outcome` back: on failure the command ends with the same reason
      and the table is untouched, on success only the account's row becomes the outcome. */
  ghost predicate Committed(
    before: map<string, Proposal>, after: map<string, Proposal>, account: string,
    outcome: Either<Proposal>, r: Either<()>)
  {
    && (r.Left? <==> outcome.Left?)
    && (outcome.Left? ==> r == Left(outcome.reason) && after == before)
    && (outcome.Right? ==> after == before[account := outcome.value])
  }

  // ---------------------------------------------------------------------------
  // Outcomes of the commands that write a proposal row

  /** `insert`: a fresh proposal for an account that has none yet. */
  function InsertOutcome(
    proposals: map<string, Proposal>, typeName: string, account: string,
    args: map<string, string>, associated: set<Cluster>, today: int): (r: Either<Proposal>)
    requires HasArgs(args)
    ensures account in proposals ==> r == Left(AlreadyExistsMessage(account))
    ensures r.Right? <==>
      && account !in proposals
      && AssociationsExist(account, associated).Right?
      && ParseProposalType(typeName).Right?
      && ServiceUnitsValid(args, true).Right?
    ensures r.Right? ==>
      && r.value.proposalType == ParseProposalType(typeName).value
      && r.value.percentNotified == Zero
      && r.value.start == today
      && r.value.end == today + GetProposalDuration(r.value.proposalType)
      && r.value.sus == ServiceUnitsValid(args, true).value
      && ProposalValid(r.value)
  {
    if AccountExistsInTable(proposals, account).Right? then Left(AlreadyExistsMessage(account))
    else
      var associatedAccount :- AssociationsExist(account, associated);
      var proposalType :- ParseProposalType(typeName);
      var sus :- ServiceUnitsValid(args, true);
      Right(Proposal.Proposal(proposalType, Zero, today, today + GetProposalDuration(proposalType), sus))
  }

  /** `modify`: new limits and a new period starting today; the notification level stays. */
  function ModifyOutcome(
    proposals: map<string, Proposal>, account: string, args: map<string, string>, today: int): (r: Either<Proposal>)
    requires HasArgs(args)
    ensures account !in proposals ==> r == Left(NotInDatabaseMessage(account))
    ensures r.Right? <==> account in proposals && ServiceUnitsValid(args, true).Right?
    ensures r.Right? ==>
      var p := proposals[account];
      && r.value.proposalType == p.proposalType
      && r.value.percentNotified == p.percentNotified
      && r.value.start == today
      && r.value.end == today + GetProposalDuration(p.proposalType)
      && r.value.sus == ServiceUnitsValid(args, true).value
      && ProposalValid(r.value)
  {
    var p :- AccountExistsInTable(proposals, account);
    var sus :- ServiceUnitsValid(args, true);
    Right(p.(start := today, end := today + GetProposalDuration(p.proposalType), sus := sus))
  }

  /** The cluster-wise sum of two per-cluster maps. */
  function AddedSus(limits: map<Cluster, int>, extra: map<Cluster, int>): (r: map<Cluster, int>)
    requires HasClusters(limits) && HasClusters(extra)
    ensures HasClusters(r)
    ensures forall c :: c in CLUSTERS ==> r[c] == limits[c] + extra[c]
    ensures Total(r) == Total(limits) + Total(extra)
  {
    var r := map c | c in CLUSTERS :: limits[c] + extra[c];
    SumOverPointwise(limits, extra, r, CLUSTERS);
    r
  }

  /** `add`: every limit grows by the given amount; since the amounts must add up to more
      than zero, the proposal's total strictly grows. Nothing else changes. */
  function AddOutcome(proposals: map<string, Proposal>, account: string, args: map<string, string>): (r: Either<Proposal>)
    requires ProposalsValid(proposals) && HasArgs(args)
    ensures account !in proposals ==> r == Left(NotInDatabaseMessage(account))
    ensures r.Right? <==> account in proposals && ServiceUnitsValid(args, false).Right?
    ensures r.Right? ==>
      var p, sus := proposals[account], ServiceUnitsValid(args, false).value;
      && r.value.proposalType == p.proposalType
      && r.value.percentNotified == p.percentNotified
      && r.value.start == p.start && r.value.end == p.end
      && HasClusters(r.value.sus)
      && (forall c :: c in CLUSTERS ==> r.value.sus[c] == p.sus[c] + sus[c])
      && Total(r.value.sus) > Total(p.sus)
      && ProposalValid(r.value)
  {
    var p :- AccountExistsInTable(proposals, account);
    var sus :- ServiceUnitsValid(args, false);
    Right(p.(sus := AddedSus(p.sus, sus)))
  }

  /** `change`: new limits, same period. */
  function ChangeOutcome(proposals: map<string, Proposal>, account: string, args: map<string, string>): (r: Either<Proposal>)
    requires ProposalsValid(proposals) && HasArgs(args)
    ensures account !in proposals ==> r == Left(NotInDatabaseMessage(account))
    ensures r.Right? <==> account in proposals && ServiceUnitsValid(args, true).Right?
    ensures r.Right? ==>
      var p := proposals[account];
      && r.value.proposalType == p.proposalType
      && r.value.percentNotified == p.percentNotified
      && r.value.start == p.start && r.value.end == p.end
      && r.value.sus == ServiceUnitsValid(args, true).value
      && ProposalValid(r.value)
  {
    var p :- AccountExistsInTable(proposals, account);
    var sus :- ServiceUnitsValid(args, true);
    Right(p.(sus := sus))
  }

  /** `date`: the period restarts on a given day that is not in the future; limits stay. */
  function DateOutcome(proposals: map<string, Proposal>, account: string, day: int, today: int): (r: Either<Proposal>)
    requires ProposalsValid(proposals)
    ensures account !in proposals ==> r == Left(NotInDatabaseMessage(account))
    ensures r.Right? <==> account in proposals && day <= today
    ensures r.Right? ==>
      var p := proposals[account];
      && r.value.proposalType == p.proposalType
      && r.value.percentNotified == p.percentNotified
      && r.value.start == day
      && r.value.end == day + GetProposalDuration(p.proposalType)
      && r.value.sus == p.sus
      && ProposalValid(r.value)
  {
    var p :- AccountExistsInTable(proposals, account);
    var startDate :- CheckDateValid(day, today);
    Right(p.(start := startDate, end := startDate + GetProposalDuration(p.proposalType)))
  }

  // ---------------------------------------------------------------------------
  // Outcome of the investor command

  function YearlyShares(sus: map<Cluster, int>): (r: map<Cluster, int>)
    requires HasClusters(sus)
    ensures HasClusters(r) && forall c :: c in CLUSTERS ==> r[c] == CeilFifth(sus[c])
  {
    map c | c in CLUSTERS :: CeilFifth(sus[c])
  }

  function NoWithdrawals(): (r: map<Cluster, int>)
    ensures HasClusters(r) && forall c :: c in CLUSTERS ==> r[c] == 0
  {
    map c | c in CLUSTERS :: 0
  }

  /** `investor`: a five-year investment for an account that has a proposal; each year
      makes a fifth (rounded up) of the investment available, and the first year's share
      is available at once. */
  function InvestorOutcome(
    proposals: map<string, Proposal>, account: string, args: map<string, string>,
    associated: set<Cluster>, today: int): (r: Either<Investment>)
    requires HasArgs(args)
    ensures account !in proposals ==> r == Left(NotInDatabaseMessage(account))
    ensures r.Right? <==>
      account in proposals && AssociationsExist(account, associated).Right? && ServiceUnitsValid(args, true).Right?
    ensures r.Right? ==> InvestmentValid(r.value)
    ensures r.Right? ==>
      && r.value.account == account
      && r.value.start == today && r.value.end == today + INVESTMENT_DAYS
      && r.value.years == 1
      && r.value.total == ServiceUnitsValid(args, true).value
    ensures r.Right? ==> forall c :: c in CLUSTERS ==>
      && 5 * r.value.perYear[c] >= r.value.total[c] > 5 * r.value.perYear[c] - 5
      && r.value.current[c] == r.value.perYear[c]
      && r.value.withdrawn[c] == 0
  {
    var p :- AccountExistsInTable(proposals, account);
    var associatedAccount :- AssociationsExist(account, associated);
    var sus :- ServiceUnitsValid(args, true);
    var shares := YearlyShares(sus);
    Right(Investment(account, today, today + INVESTMENT_DAYS, 1, sus, shares, shares, NoWithdrawals()))
  }

  // ---------------------------------------------------------------------------
  // Outcome of the usage check

  /** The sum of a list of numbers: it bounds every term, and is zero exactly when every term is. */
  function Sum(xs: seq<nat>): (r: nat)
    ensures forall i :: 0 <= i < |xs| ==> xs[i] <= r
    ensures r == 0 <==> forall i :: 0 <= i < |xs| ==> xs[i] == 0
  {
    if xs == [] then 0 else Sum(xs[..|xs| - 1]) + xs[|xs| - 1]
  }

  /** The usage percentage; the caller must show that the available SUs are positive. */
  function PercentUsage(used: nat, available: int): (percent: real)
    requires available > 0
    ensures percent >= 0.0
    ensures percent == 0.0 <==> used == 0
    ensures percent >= 100.0 <==> used >= available
  {
    100.0 * used as real / available as real
  }

  /** The level the usage check moves a proposal to. `findNextNotification` maps a usage
      percentage to a level; nothing about it is assumed, not even that it grows with the
      percentage. `usage` holds the hours used on each cluster, in CLUSTERS order. */
  function NotifiedLevel(
    p: Proposal, investments: seq<Investment>, account: string, usage: seq<nat>,
    findNextNotification: real -> PercentNotified): (level: PercentNotified)
    requires ProposalValid(p)
    requires forall k :: 0 <= k < |investments| ==> InvestmentValid(investments[k])
    ensures (forall i :: 0 <= i < |usage| ==> usage[i] == 0) ==> level == findNextNotification(0.0)
  {
    findNextNotification(PercentUsage(Sum(usage), AvailableSus(p, investments, account)))
  }

  /** `check_sus_limit`: an account already at 100% is skipped; otherwise a change of level
      is recorded and mailed, and reaching 100% locks the account, so a lock always comes
      with a notification. */
  function SusLimitOutcome(
    proposals: map<string, Proposal>, investments: seq<Investment>, account: string,
    usage: seq<nat>, findNextNotification: real -> PercentNotified): (r: Either<seq<Event>>)
    requires LedgerValid(proposals, investments)
    ensures account !in proposals ==> r == Left(NotInDatabaseMessage(account))
    ensures account in proposals && proposals[account].percentNotified == Hundred ==>
      r == Left(AlreadyLockedMessage(account))
    ensures r.Right? <==> account in proposals && proposals[account].percentNotified != Hundred
    ensures r.Right? ==>
      var stored := proposals[account].percentNotified;
      var level := NotifiedLevel(proposals[account], investments, account, usage, findNextNotification);
      && (NotifySusLimit in r.value <==> level != stored)
      && (LockAccount in r.value <==> level == Hundred)
      && (LockAccount in r.value ==> NotifySusLimit in r.value)
      && (LockAccount in r.value ==> r.value == [NotifySusLimit, LockAccount])
      && |r.value| == (if level != stored then 1 else 0) + (if level == Hundred then 1 else 0)
      && ThreeMonthExpiryNotice !in r.value && ProposalExpiredNotice !in r.value
      && |r.value| <= 2
  {
    var p :- AccountExistsInTable(proposals, account);
    if p.percentNotified == Hundred then Left(AlreadyLockedMessage(account))
    else
      var level := NotifiedLevel(p, investments, account, usage, findNextNotification);
      Right((if level != p.percentNotified then [NotifySusLimit] else []) + (if level == Hundred then [LockAccount] else []))
  }

  /** The usage check records a lower level too. When the thresholds give a level below the
      stored one, for instance after `add` raised the limits, the owner is mailed once, the
      account is not locked, and the lower level is stored. The level does not only grow. */
  lemma SusLimitLowersLevel(
    proposals: map<string, Proposal>, investments: seq<Investment>, account: string,
    usage: seq<nat>, findNextNotification: real -> PercentNotified)
    requires LedgerValid(proposals, investments)
    requires account in proposals && proposals[account].percentNotified != Hundred
    requires Percent(NotifiedLevel(proposals[account], investments, account, usage, findNextNotification))
      < Percent(proposals[account].percentNotified)
    ensures SusLimitOutcome(proposals, investments, account, usage, findNextNotification) == Right([NotifySusLimit])
  {
    var p := proposals[account];
    var level := NotifiedLevel(p, investments, account, usage, findNextNotification);
    assert level != p.percentNotified && level != Hundred;
    var r := SusLimitOutcome(proposals, investments, account, usage, findNextNotification);
    assert r.Right? && |r.value| == 1 && NotifySusLimit in r.value;
    assert r.value == [NotifySusLimit];
  }

  /** A line of `get_sus` output reads back as the row it was printed from: its fields after
      the tag are the row's SUs, in CLUSTERS order. */
  lemma SusLineDecodes(line: string, tag: string, sus: map<Cluster, int>)
    requires HasClusters(sus)
    requires Split(line, ',') == [tag] + IntStrings(ClusterValues(sus))
    ensures |Split(line, ',')| == 1 + |CLUSTERS|
    ensures Split(line, ',')[0] == tag
    ensures forall i :: 0 <= i < |CLUSTERS| ==> ParseInt(Split(line, ',')[1 + i]) == Some(sus[CLUSTERS[i]])
  {
    IntStringsDecode(ClusterValues(sus));
  }

  // ---------------------------------------------------------------------------
  // The per-cluster loops of the commands

  /** Writes each cluster's validated SUs into the row's column for that cluster, cluster by
      cluster: the row's SU columns become `sus`. */
  method WriteClusterSus(row: map<Cluster, int>, sus: map<Cluster, int>) returns (r: map<Cluster, int>)
    requires HasClusters(sus)
    ensures r == sus
  {
    r := row;
    AllClustersListed();
    for i := 0 to |CLUSTERS|
      invariant forall c :: c in CLUSTERS[..i] ==> c in r && r[c] == sus[c]
    {
      assert CLUSTERS[..i + 1] == CLUSTERS[..i] + [CLUSTERS[i]];
      r := r[CLUSTERS[i] := sus[CLUSTERS[i]]];
    }
    assert CLUSTERS[..|CLUSTERS|] == CLUSTERS;
    AllClustersListed();
  }

  /** Adds each cluster's given SUs to the row's column for that cluster, cluster by cluster. */
  method AddClusterSus(row: map<Cluster, int>, sus: map<Cluster, int>) returns (r: map<Cluster, int>)
    requires HasClusters(row) && HasClusters(sus)
    ensures r == AddedSus(row, sus)
  {
    r := row;
    ClustersDistinct();
    AllClustersListed();
    for i := 0 to |CLUSTERS|
      invariant forall c :: c in r
      invariant forall j :: 0 <= j < i ==> r[CLUSTERS[j]] == row[CLUSTERS[j]] + sus[CLUSTERS[j]]
      invariant forall j :: i <= j < |CLUSTERS| ==> r[CLUSTERS[j]] == row[CLUSTERS[j]]
    {
      r := r[CLUSTERS[i] := r[CLUSTERS[i]] + sus[CLUSTERS[i]]];
    }
    var expected := AddedSus(row, sus);
    forall c
      ensures c in expected && r[c] == expected[c]
    {
      assert CLUSTERS[Rank(c)] == c;
    }
    assert r == expected;
  }

  /** The per-cluster columns the investor command writes: the invested amount, a fifth of
      it rounded up as the yearly share, the same as currently available, nothing withdrawn. */
  method InvestmentColumns(sus: map<Cluster, int>)
    returns (total: map<Cluster, int>, perYear: map<Cluster, int>, current: map<Cluster, int>, withdrawn: map<Cluster, int>)
    requires HasClusters(sus)
    ensures total == sus && perYear == YearlyShares(sus) && current == perYear && withdrawn == NoWithdrawals()
  {
    total, perYear, current, withdrawn := map[], map[], map[], map[];
    for i := 0 to |CLUSTERS|
      invariant forall c :: c in total <==> c in CLUSTERS[..i]
      invariant forall c :: c in perYear <==> c in CLUSTERS[..i]
      invariant forall c :: c in current <==> c in CLUSTERS[..i]
      invariant forall c :: c in withdrawn <==> c in CLUSTERS[..i]
      invariant forall c :: c in total ==>
        && total[c] == sus[c]
        && perYear[c] == CeilFifth(sus[c])
        && current[c] == CeilFifth(sus[c])
        && withdrawn[c] == 0
    {
      assert CLUSTERS[..i + 1] == CLUSTERS[..i] + [CLUSTERS[i]];
      var clus := CLUSTERS[i];
      total := total[clus := sus[clus]];
      perYear := perYear[clus := CeilFifth(sus[clus])];
      current := current[clus := CeilFifth(sus[clus])];
      withdrawn := withdrawn[clus := 0];
    }
    assert CLUSTERS[..|CLUSTERS|] == CLUSTERS;
    AllClustersListed();
  }

  /** The SUs available to the account: the proposal's total plus, investment by
      investment, what each currently provides. */
  method TotalAvailableSus(p: Proposal, investments: seq<Investment>, account: string) returns (totalSus: int)
    requires ProposalValid(p)
    requires forall k :: 0 <= k < |investments| ==> InvestmentValid(investments[k])
    ensures totalSus == AvailableSus(p, investments, account)
  {
    totalSus := Total(p.sus);
    var investorRows := InvestmentsOf(investments, account);
    InvestmentsOfValid(investments, account);
    for k := 0 to |investorRows|
      invariant totalSus == Total(p.sus) + InvestedSus(investorRows[..k])
    {
      assert investorRows[..k + 1][..k] == investorRows[..k];
      totalSus := totalSus + Total(investorRows[k].current);
    }
    assert investorRows[..|investorRows|] == investorRows;
  }

  /** The hours used on all clusters together. */
  method UsedSus(usage: seq<nat>) returns (usedSus: nat)
    ensures usedSus == Sum(usage)
  {
    usedSus := 0;
    for i := 0 to |usage|
      invariant usedSus == Sum(usage[..i])
    {
      assert usage[..i + 1][..i] == usage[..i];
      usedSus := usedSus + usage[i];
    }
    assert usage[..|usage|] == usage;
  }

  /** The output line of one investment: its tag, then its current SUs in CLUSTERS order,
      rendered into a buffer with one slot per cluster. */
  method InvestmentLine(row: Investment) returns (line: string)
    requires HasClusters(row.current)
    ensures Split(line, ',') == ["investment"] + IntStrings(ClusterValues(row.current))
  {
    var sus := new string[|CLUSTERS|];
    for idx := 0 to |CLUSTERS|
      invariant forall j :: 0 <= j < idx ==> sus[j] == IntToString(row.current[CLUSTERS[j]])
    {
      sus[idx] := IntToString(row.current[CLUSTERS[idx]]);
    }
    assert sus[..] == IntStrings(ClusterValues(row.current));
    IntStringsHaveNoComma(ClusterValues(row.current));
    CsvLineFields("investment", sus[..]);
    line := "investment" + "," + Join(sus[..], ",");
  }

  /** The output lines of a list of investments, one per row, in order. */
  method InvestmentLines(rows: seq<Investment>) returns (lines: seq<string>)
    requires forall k :: 0 <= k < |rows| ==> HasClusters(rows[k].current)
    ensures |lines| == |rows|
    ensures forall k :: 0 <= k < |rows| ==>
      Split(lines[k], ',') == ["investment"] + IntStrings(ClusterValues(rows[k].current))
  {
    lines := [];
    for k := 0 to |rows|
      invariant |lines| == k
      invariant forall j :: 0 <= j < k ==>
        Split(lines[j], ',') == ["investment"] + IntStrings(ClusterValues(rows[j].current))
    {
      var line := InvestmentLine(rows[k]);
      lines := lines + [line];
    }
  }

  /** The header line and the proposal's line. */
  method ProposalLines(p: Proposal) returns (lines: seq<string>)
    requires HasClusters(p.sus)
    ensures |lines| == 2
    ensures Split(lines[0], ',') == ["type"] + Names(CLUSTERS)
    ensures Split(lines[1], ',') == ["proposal"] + IntStrings(ClusterValues(p.sus))
  {
    CsvLineFields("type", Names(CLUSTERS));
    var sus := seq(|CLUSTERS|, i requires 0 <= i < |CLUSTERS| => IntToString(p.sus[CLUSTERS[i]]));
    assert sus == IntStrings(ClusterValues(p.sus));
    IntStringsHaveNoComma(ClusterValues(p.sus));
    CsvLineFields("proposal", sus);
    lines := ["type" + "," + Join(Names(CLUSTERS), ","), "proposal" + "," + Join(sus, ",")];
  }

  // ---------------------------------------------------------------------------
  // The ledger

  class Bank {
    var proposals: map<string, Proposal>
    var investments: seq<Investment>

    ghost predicate Valid()
      reads this
    {
      LedgerValid(proposals, investments)
    }

    /** An empty ledger. */
    constructor ()
      ensures Valid() && proposals == map[] && investments == []
    {
      proposals := map[];
      investments := [];
    }

    method Insert(
      typeName: string, account: string, args: map<string, string>, associated: set<Cluster>, today: int)
      returns (r: Either<()>)
      requires Valid() && HasArgs(args)
      modifies this
      ensures Valid() && investments == old(investments)
      ensures Committed(old(proposals), proposals, account,
        InsertOutcome(old(proposals), typeName, account, args, associated, today), r)
    {
      var x := AccountExistsInTable(proposals, account);
      if x.Right? {
        return Left(AlreadyExistsMessage(account));
      }
      var associatedAccount :- AccountAndClusterAssociationsExists(account, associated);
      var proposalType :- ParseProposalType(typeName);
      var proposalDuration := GetProposalDuration(proposalType);
      var startDate := today;
      var endDate := startDate + proposalDuration;
      var sus :- CheckServiceUnitsValid(args, true);
      var toInsert := WriteClusterSus(map[], sus);
      var newRow := Proposal.Proposal(proposalType, Zero, startDate, endDate, toInsert);
      LedgerValidPut(proposals, investments, account, newRow);
      proposals := proposals[account := newRow];
      r := Right(());
    }

    method Investor(account: string, args: map<string, string>, associated: set<Cluster>, today: int)
      returns (r: Either<()>)
      requires Valid() && HasArgs(args)
      modifies this
      ensures Valid() && proposals == old(proposals)
      ensures var outcome := InvestorOutcome(old(proposals), account, args, associated, today);
        && (r.Left? <==> outcome.Left?)
        && (outcome.Left? ==> r == Left(outcome.reason) && investments == old(investments))
        && (outcome.Right? ==> investments == old(investments) + [outcome.value])
    {
      var row :- AccountExistsInTable(proposals, account);
      var associatedAccount :- AccountAndClusterAssociationsExists(account, associated);
      var startDate := today;
      var endDate := startDate + INVESTMENT_DAYS;
      var sus :- CheckServiceUnitsValid(args, true);
      var total, perYear, current, withdrawn := InvestmentColumns(sus);
      var newRow := Investment(account, startDate, endDate, 1, total, perYear, current, withdrawn);
      assert newRow == InvestorOutcome(proposals, account, args, associated, today).value;
      LedgerValidAppend(proposals, investments, newRow);
      investments := investments + [newRow];
      r := Right(());
    }

    method Modify(account: string, args: map<string, string>, today: int) returns (r: Either<()>)
      requires Valid() && HasArgs(args)
      modifies this
      ensures Valid() && investments == old(investments)
      ensures Committed(old(proposals), proposals, account, ModifyOutcome(old(proposals), account, args, today), r)
    {
      var row :- AccountExistsInTable(proposals, account);
      var sus :- CheckServiceUnitsValid(args, true);
      var od := proposals[account];
      var proposalDuration := GetProposalDuration(od.proposalType);
      var startDate := today;
      var endDate := startDate + proposalDuration;
      var limits := WriteClusterSus(od.sus, sus);
      proposals := proposals[account := od.(start := startDate, end := endDate, sus := limits)];
      r := Right(());
    }

    method Add(account: string, args: map<string, string>) returns (r: Either<()>)
      requires Valid() && HasArgs(args)
      modifies this
      ensures Valid() && investments == old(investments)
      ensures Committed(old(proposals), proposals, account, AddOutcome(old(proposals), account, args), r)
    {
      var row :- AccountExistsInTable(proposals, account);
      var sus :- CheckServiceUnitsValid(args, false);
      var od := proposals[account];
      var limits := AddClusterSus(od.sus, sus);
      proposals := proposals[account := od.(sus := limits)];
      r := Right(());
    }

    method Change(account: string, args: map<string, string>) returns (r: Either<()>)
      requires Valid() && HasArgs(args)
      modifies this
      ensures Valid() && investments == old(investments)
      ensures Committed(old(proposals), proposals, account, ChangeOutcome(old(proposals), account, args), r)
    {
      var row :- AccountExistsInTable(proposals, account);
      var sus :- CheckServiceUnitsValid(args, true);
      var od := proposals[account];
      var limits := WriteClusterSus(od.sus, sus);
      proposals := proposals[account := od.(sus := limits)];
      r := Right(());
    }

    method Date(account: string, day: int, today: int) returns (r: Either<()>)
      requires Valid()
      modifies this
      ensures Valid() && investments == old(investments)
      ensures Committed(old(proposals), proposals, account, DateOutcome(old(proposals), account, day, today), r)
    {
      var row :- AccountExistsInTable(proposals, account);
      var startDate :- CheckDateValid(day, today);
      var od := proposals[account];
      var proposalDuration := GetProposalDuration(od.proposalType);
      var endDate := startDate + proposalDuration;
      proposals := proposals[account := od.(start := startDate, end := endDate)];
      r := Right(());
    }

    /** Adds up the available and the used SUs, then applies the notification rule. */
    method CheckSusLimit(account: string, usage: seq<nat>, findNextNotification: real -> PercentNotified)
      returns (r: Either<seq<Event>>)
      requires Valid() && |usage| == |CLUSTERS|
      modifies this
      ensures Valid() && investments == old(investments)
      ensures r == SusLimitOutcome(old(proposals), old(investments), account, usage, findNextNotification)
      ensures r.Left? ==> proposals == old(proposals)
      ensures r.Right? ==>
        var p := old(proposals)[account];
        proposals == old(proposals)[account :=
          p.(percentNotified := NotifiedLevel(p, old(investments), account, usage, findNextNotification))]
    {
      var proposalRow :- AccountExistsInTable(proposals, account);
      var totalSus := TotalAvailableSus(proposalRow, investments, account);
      var usedSus := UsedSus(usage);

      var notificationPercent := proposalRow.percentNotified;
      if notificationPercent == Hundred {
        return Left(AlreadyLockedMessage(account));
      }

      var percentUsage := PercentUsage(usedSus, totalSus);
      var updatedNotificationPercent := findNextNotification(percentUsage);
      assert updatedNotificationPercent == NotifiedLevel(proposalRow, investments, account, usage, findNextNotification);
      var events: seq<Event> := [];
      if updatedNotificationPercent != notificationPercent {
        proposals := proposals[account := proposalRow.(percentNotified := updatedNotificationPercent)];
        events := events + [NotifySusLimit];
      }
      if updatedNotificationPercent == Hundred {
        events := events + [LockAccount];
      }
      assert events == (if updatedNotificationPercent != notificationPercent then [NotifySusLimit] else [])
        + (if updatedNotificationPercent == Hundred then [LockAccount] else []);
      r := Right(events);
    }

    /** Warns ninety days before the end of the proposal and locks on its last day. */
    method CheckProposalEndDate(account: string, today: int) returns (r: Either<seq<Event>>)
      ensures account !in proposals ==> r == Left(NotInDatabaseMessage(account))
      ensures account in proposals ==>
        var end := proposals[account].end;
        && r.Right?
        && (ThreeMonthExpiryNotice in r.value <==> today == end - EXPIRY_WARNING_DAYS)
        && (ProposalExpiredNotice in r.value <==> today == end)
        && (LockAccount in r.value <==> today == end)
        && (today == end - EXPIRY_WARNING_DAYS ==> r.value == [ThreeMonthExpiryNotice])
        && (today == end ==> r.value == [ProposalExpiredNotice, LockAccount])
        && (Valid() && r.value != [] ==> proposals[account].start < today)
        && (r.value == [] <==> today != end && today != end - EXPIRY_WARNING_DAYS)
        && NotifySusLimit !in r.value
    {
      var proposalRow :- AccountExistsInTable(proposals, account);
      var threeMonthsBeforeEndDate := proposalRow.end - EXPIRY_WARNING_DAYS;
      if today == threeMonthsBeforeEndDate {
        r := Right([ThreeMonthExpiryNotice]);
      } else if today == proposalRow.end {
        r := Right([ProposalExpiredNotice, LockAccount]);
      } else {
        r := Right([]);
      }
    }

    /** The comma-separated limits of an account: a header naming the clusters, the
        proposal's limits, then the current SUs of each of its investments. */
    method GetSus(account: string) returns (r: Either<seq<string>>)
      requires Valid()
      ensures account !in proposals ==> r == Left(NotInDatabaseMessage(account))
      ensures account in proposals ==>
        var rows := InvestmentsOf(investments, account);
        && r.Right?
        && |r.value| == 2 + |rows|
        && Split(r.value[0], ',') == ["type"] + Names(CLUSTERS)
        && Split(r.value[1], ',') == ["proposal"] + IntStrings(ClusterValues(proposals[account].sus))
        && (forall k :: 0 <= k < |rows| ==> InvestmentValid(rows[k]))
        && (forall k :: 0 <= k < |rows| ==>
              Split(r.value[2 + k], ',') == ["investment"] + IntStrings(ClusterValues(rows[k].current)))
    {
      var proposalRow :- AccountExistsInTable(proposals, account);
      var head := ProposalLines(proposalRow);
      var ods := InvestmentsOf(investments, account);
      InvestmentsOfValid(investments, account);
      var tail := InvestmentLines(ods);
      r := Right(head + tail);
    }
  }
}
