/** The rows of the two ledger tables: a proposal (one per account) and an
    investment (any number per account), with the conditions every row that the
    ledger commands write satisfies. */
module Records {
  import opened Constants
  import opened Utils

  /** A proposal row. The account is the key of the proposal table. */
  datatype Proposal = Proposal(
    proposalType: ProposalType,
    percentNotified: PercentNotified,
    start: int,
    end: int,
    sus: map<Cluster, int>)

  /** An investment row: per cluster the invested total, the yearly share, the amount
      currently available and the amount withdrawn so far. */
  datatype Investment = Investment(
    account: string,
    start: int,
    end: int,
    years: int,
    total: map<Cluster, int>,
    perYear: map<Cluster, int>,
    current: map<Cluster, int>,
    withdrawn: map<Cluster, int>)

  /** An investment runs for five years. */
  const INVESTMENT_YEARS := 5
  const INVESTMENT_DAYS := 1825

  /** `ceil(x / 5)`: the smallest share that, taken every year, covers `x`. */
  function CeilFifth(x: int): (r: int)
    ensures 5 * r >= x
    ensures 5 * r < x + 5
  {
    (x + 4) / 5
  }

  /** A proposal row as the ledger keeps it: a count for every cluster summing to at
      least the floor, and a period as long as its type prescribes. */
  ghost predicate ProposalValid(p: Proposal) {
    && HasClusters(p.sus)
    && Total(p.sus) >= MINIMUM_TOTAL_SUS
    && p.end == p.start + GetProposalDuration(p.proposalType)
  }

  /** An investment row as the investor command writes it. */
  ghost predicate InvestmentValid(inv: Investment) {
    && HasClusters(inv.total) && HasClusters(inv.perYear)
    && HasClusters(inv.current) && HasClusters(inv.withdrawn)
    && Total(inv.total) >= MINIMUM_TOTAL_SUS
    && inv.years == 1
    && inv.end == inv.start + INVESTMENT_DAYS
    && forall c :: c in CLUSTERS ==>
         && inv.perYear[c] == CeilFifth(inv.total[c])
         && inv.current[c] == inv.perYear[c]
         && inv.withdrawn[c] == 0
  }

  /** Five yearly shares cover the sum they are shares of. */
  lemma {:induction false} CeilFifthSum(total: map<Cluster, int>, share: map<Cluster, int>, cs: seq<Cluster>)
    requires forall c :: c in cs ==> c in total && c in share && share[c] == CeilFifth(total[c])
    ensures 5 * SumOver(share, cs) >= SumOver(total, cs)
  {
    if cs != [] {
      CeilFifthSum(total, share, cs[..|cs| - 1]);
    }
  }

  /** The SUs an investment currently makes available are at least a fifth of the floor. */
  lemma InvestmentCurrentBound(inv: Investment)
    requires InvestmentValid(inv)
    ensures Total(inv.current) >= MINIMUM_TOTAL_SUS / INVESTMENT_YEARS
  {
    CeilFifthSum(inv.total, inv.current, CLUSTERS);
  }

  /** The investment rows of one account, looked up by account in the investment table, in
      table order. */
  function InvestmentsOf(investments: seq<Investment>, account: string): seq<Investment> {
    if investments == [] then []
    else
      var last := investments[|investments| - 1];
      InvestmentsOf(investments[..|investments| - 1], account) + if last.account == account then [last] else []
  }

  /** Every row found is one of the account's rows, and every such row is found. */
  lemma {:induction false} InvestmentsOfSpec(investments: seq<Investment>, account: string)
    ensures forall k :: 0 <= k < |InvestmentsOf(investments, account)| ==>
      InvestmentsOf(investments, account)[k] in investments && InvestmentsOf(investments, account)[k].account == account
    ensures forall inv :: inv in investments && inv.account == account ==> inv in InvestmentsOf(investments, account)
  {
    if investments != [] {
      var front, last := investments[..|investments| - 1], investments[|investments| - 1];
      InvestmentsOfSpec(front, account);
      assert investments == front + [last];
      var rows := InvestmentsOf(investments, account);
      assert rows == InvestmentsOf(front, account) + if last.account == account then [last] else [];
      forall k | 0 <= k < |rows|
        ensures rows[k] in investments && rows[k].account == account
      {
        if k < |InvestmentsOf(front, account)| {
          assert rows[k] == InvestmentsOf(front, account)[k];
        }
      }
    }
  }

  /** The rows found in a table of valid rows are valid. */
  lemma {:induction false} InvestmentsOfValid(investments: seq<Investment>, account: string)
    requires forall k :: 0 <= k < |investments| ==> InvestmentValid(investments[k])
    ensures forall k :: 0 <= k < |InvestmentsOf(investments, account)| ==> InvestmentValid(InvestmentsOf(investments, account)[k])
  {
    if investments != [] {
      var front, last := investments[..|investments| - 1], investments[|investments| - 1];
      assert forall k :: 0 <= k < |front| ==> front[k] == investments[k];
      InvestmentsOfValid(front, account);
      var rows := InvestmentsOf(investments, account);
      assert rows == InvestmentsOf(front, account) + if last.account == account then [last] else [];
      forall k | 0 <= k < |rows|
        ensures InvestmentValid(rows[k])
      {
        if k < |InvestmentsOf(front, account)| {
          assert rows[k] == InvestmentsOf(front, account)[k];
        }
      }
    }
  }

  /** Each of the account's rows is found as often as the table holds it, and no other row is. */
  lemma {:induction false} InvestmentsOfCount(investments: seq<Investment>, account: string)
    ensures forall inv ::
      multiset(InvestmentsOf(investments, account))[inv] == if inv.account == account then multiset(investments)[inv] else 0
  {
    if investments != [] {
      var front, last := investments[..|investments| - 1], investments[|investments| - 1];
      assert investments == front + [last];
      InvestmentsOfCount(front, account);
    }
  }

  /** The rows are found in table order: finding in two consecutive stretches of the table
      and concatenating gives what finding in the whole table gives. */
  lemma {:induction false} InvestmentsOfAppend(a: seq<Investment>, b: seq<Investment>, account: string)
    ensures InvestmentsOf(a + b, account) == InvestmentsOf(a, account) + InvestmentsOf(b, account)
    decreases |b|
  {
    if b == [] {
      assert a + b == a;
    } else {
      var front, last := b[..|b| - 1], b[|b| - 1];
      assert (a + b)[..|a + b| - 1] == a + front;
      InvestmentsOfAppend(a, front, account);
    }
  }

  /** The SUs currently available from a list of investment rows. */
  function InvestedSus(rows: seq<Investment>): (r: int)
    requires forall k :: 0 <= k < |rows| ==> InvestmentValid(rows[k])
    ensures r >= |rows| * (MINIMUM_TOTAL_SUS / INVESTMENT_YEARS)
  {
    if rows == [] then 0
    else
      InvestmentCurrentBound(rows[|rows| - 1]);
      InvestedSus(rows[..|rows| - 1]) + Total(rows[|rows| - 1].current)
  }

  /** The SUs available to an account: its proposal plus what its investments currently
      provide. The floor on proposals keeps it at or above 10000, so the usage percentage
      can always be computed. */
  function AvailableSus(p: Proposal, investments: seq<Investment>, account: string): (r: int)
    requires ProposalValid(p)
    requires forall k :: 0 <= k < |investments| ==> InvestmentValid(investments[k])
    ensures r >= MINIMUM_TOTAL_SUS
  {
    InvestmentsOfValid(investments, account);
    Total(p.sus) + InvestedSus(InvestmentsOf(investments, account))
  }
}
