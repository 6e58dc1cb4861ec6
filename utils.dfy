/** The validation helpers every ledger command runs before it touches a table.

    Each helper answers with an `Either`: `Right(value)` when the input is acceptable,
    `Left(reason)` with the message the command exits with otherwise. */
module Utils {
  import opened Text
  import opened Constants

  /** `Right(value)` or `Left(reason)`. The `:-` operator is `unwrap_if_right`: it yields
      the value of a `Right` and makes the enclosing command return the `Left` unchanged,
      so the command ends with that reason and changes nothing further. */
  datatype Either<+T> = Right(value: T) | Left(reason: string) {
    predicate IsFailure() {
      Left?
    }

    function PropagateFailure<U>(): Either<U>
      requires Left?
    {
      Left(reason)
    }

    function Extract(): T
      requires Right?
    {
      value
    }
  }

  /** A command step that unwraps `x` with `:-` and goes on with `rest`. */
  function UnwrapThen<T, U>(x: Either<T>, rest: T -> Either<U>): Either<U> {
    var v :- x;
    rest(v)
  }

  /** Unwrapping a `Left` ends the step with that reason unchanged, whatever would have
      followed; unwrapping a `Right` goes on with its value. */
  lemma UnwrapIfRight<T, U>(x: Either<T>, rest: T -> Either<U>)
    ensures x.Left? ==> UnwrapThen(x, rest) == Left(x.reason)
    ensures x.Right? ==> UnwrapThen(x, rest) == rest(x.value)
  {
  }

  /** The usage level last recorded for an account by the usage check. */
  datatype PercentNotified = Zero | TwentyFive | Fifty | SeventyFive | Ninety | Hundred

  /** The percentage a level stands for. */
  function Percent(level: PercentNotified): nat {
    match level
    case Zero => 0
    case TwentyFive => 25
    case Fifty => 50
    case SeventyFive => 75
    case Ninety => 90
    case Hundred => 100
  }

  datatype ProposalType = Proposal | Class

  /** How each proposal type is spelled on the command line. */
  function ProposalTypeArgument(t: ProposalType): string {
    match t
    case Proposal => "proposal"
    case Class => "class"
  }

  /** Each type's spelling reads back as that type. */
  lemma ParseProposalTypeArgument(t: ProposalType)
    ensures ParseProposalType(ProposalTypeArgument(t)) == Right(t)
  {
  }

  /** Reads a proposal type from its command-line spelling. */
  function ParseProposalType(s: string): (r: Either<ProposalType>)
    ensures r.Right? <==> s == "proposal" || s == "class"
    ensures r.Right? ==> ProposalTypeArgument(r.value) == s
    ensures r.Left? ==> r.reason == "Valid proposal types are `proposal` or `class`, not `" + s + "`"
  {
    if s == "proposal" then Right(Proposal)
    else if s == "class" then Right(Class)
    else Left("Valid proposal types are `proposal` or `class`, not `" + s + "`")
  }

  /** Length of a proposal period in days: a year for a proposal, a term for a class.
      Either is longer than the 90-day lead of the expiry warning. */
  function GetProposalDuration(t: ProposalType): (days: int)
    ensures 90 < days <= 365
    ensures days == 365 <==> t == Proposal
    ensures t == Class ==> days == 122
  {
    if t == Proposal then 365 else 122
  }

  /** The not-in-the-future check on an already parsed start day. */
  function CheckDateValid(day: int, today: int): (r: Either<int>)
    ensures r.Right? <==> day <= today
    ensures r.Right? ==> r.value == day
  {
    if day > today then Left("Parsed `" + IntToString(day) + "`, but start dates shouldn't be in the future")
    else Right(day)
  }

  function NotInDatabaseMessage(account: string): string {
    "Account `" + account + "` doesn't exist in the database"
  }

  /** Finds the row of `account` in a table keyed by account. */
  function AccountExistsInTable<R>(table: map<string, R>, account: string): (r: Either<R>)
    ensures r.Right? <==> account in table
    ensures r.Right? ==> r.value == table[account]
    ensures r.Left? ==> r.reason == NotInDatabaseMessage(account)
  {
    if account in table then Right(table[account]) else Left(NotInDatabaseMessage(account))
  }

  // ---------------------------------------------------------------------------
  // Service-unit arguments

  /** The smallest total SU count a proposal or an investment may hold. */
  const MINIMUM_TOTAL_SUS := 10000

  /** The docopt key under which the SU argument of cluster `c` arrives. */
  function ArgKey(c: Cluster): string {
    "<" + Name(c) + ">"
  }

  /** Every cluster has an SU argument. */
  ghost predicate HasArgs(args: map<string, string>) {
    forall c :: c in CLUSTERS ==> ArgKey(c) in args
  }

  ghost predicate AllIntegers(args: map<string, string>)
    requires HasArgs(args)
  {
    forall c :: c in CLUSTERS ==> ParseInt(args[ArgKey(c)]).Some?
  }

  /** The clusters among `cs` whose argument is not an integer, in order. */
  function NonIntegerClusters(args: map<string, string>, cs: seq<Cluster>): seq<Cluster>
    requires HasArgs(args)
  {
    if cs == [] then []
    else
      var c := cs[|cs| - 1];
      NonIntegerClusters(args, cs[..|cs| - 1]) + if ParseInt(args[ArgKey(c)]).None? then [c] else []
  }

  /** Exactly the clusters whose argument does not parse are reported. */
  lemma {:induction false} NonIntegerClustersSpec(args: map<string, string>, cs: seq<Cluster>)
    requires HasArgs(args)
    ensures forall c :: c in NonIntegerClusters(args, cs) <==> c in cs && ParseInt(args[ArgKey(c)]).None?
  {
    if cs != [] {
      NonIntegerClustersSpec(args, cs[..|cs| - 1]);
      assert cs == cs[..|cs| - 1] + [cs[|cs| - 1]];
    }
  }

  /** Listed in cluster order, the offending clusters are reported in cluster order, each
      once. */
  lemma {:induction false} NonIntegerClustersOrdered(args: map<string, string>, cs: seq<Cluster>)
    requires HasArgs(args)
    requires InClusterOrder(cs)
    ensures InClusterOrder(NonIntegerClusters(args, cs))
  {
    if cs != [] {
      var front, c := cs[..|cs| - 1], cs[|cs| - 1];
      NonIntegerClustersOrdered(args, front);
      NonIntegerClustersSpec(args, front);
      var bad := NonIntegerClusters(args, front);
      forall k | 0 <= k < |bad|
        ensures Rank(bad[k]) < Rank(c)
      {
        assert bad[k] in bad;
        var m :| 0 <= m < |front| && front[m] == bad[k];
        assert cs[m] == bad[k];
      }
    }
  }

  /** The clusters with a non-integer argument, as the command reports them, come in cluster
      order, each once. */
  lemma ReportedInClusterOrder(args: map<string, string>)
    requires HasArgs(args)
    ensures InClusterOrder(NonIntegerClusters(args, CLUSTERS))
  {
    ClustersInOrder();
    NonIntegerClustersOrdered(args, CLUSTERS);
  }

  function NonIntegerMessage(args: map<string, string>, c: Cluster): string
    requires HasArgs(args)
  {
    "Given non-integer value `" + args[ArgKey(c)] + "` for cluster `" + Name(c) + "`"
  }

  /** The complaints collected for the clusters `cs`, in cluster order. */
  function Complaints(args: map<string, string>, cs: seq<Cluster>): seq<string>
    requires HasArgs(args)
  {
    if cs == [] then []
    else
      var c := cs[|cs| - 1];
      Complaints(args, cs[..|cs| - 1]) + if ParseInt(args[ArgKey(c)]).None? then [NonIntegerMessage(args, c)] else []
  }

  /** One complaint per offending cluster, naming it, in the order of the offending clusters. */
  lemma {:induction false} ComplaintsSpec(args: map<string, string>, cs: seq<Cluster>)
    requires HasArgs(args)
    ensures var bad, lefts := NonIntegerClusters(args, cs), Complaints(args, cs);
      |lefts| == |bad| && forall k :: 0 <= k < |bad| ==> lefts[k] == NonIntegerMessage(args, bad[k])
  {
    if cs != [] {
      ComplaintsSpec(args, cs[..|cs| - 1]);
    }
  }

  /** The parsed arguments of the clusters among `cs` whose argument is an integer. */
  function ParsedArgs(args: map<string, string>, cs: seq<Cluster>): map<Cluster, int>
    requires HasArgs(args)
  {
    if cs == [] then map[]
    else
      var c, front := cs[|cs| - 1], ParsedArgs(args, cs[..|cs| - 1]);
      if ParseInt(args[ArgKey(c)]).Some? then front[c := ParseInt(args[ArgKey(c)]).value] else front
  }

  /** Exactly the clusters whose argument parses get an entry, holding the parsed value. */
  lemma {:induction false} ParsedArgsSpec(args: map<string, string>, cs: seq<Cluster>)
    requires HasArgs(args)
    ensures forall c :: c in ParsedArgs(args, cs) <==> c in cs && ParseInt(args[ArgKey(c)]).Some?
    ensures forall c :: c in ParsedArgs(args, cs) ==> ParseInt(args[ArgKey(c)]) == Some(ParsedArgs(args, cs)[c])
  {
    if cs != [] {
      ParsedArgsSpec(args, cs[..|cs| - 1]);
      assert cs == cs[..|cs| - 1] + [cs[|cs| - 1]];
    }
  }

  /** The total a valid SU argument set must reach: the 10000 floor, or merely positive. */
  function MinimumTotal(greaterThanTenThousand: bool): int {
    if greaterThanTenThousand then MINIMUM_TOTAL_SUS else 1
  }

  /** What `check_service_units_valid` returns: every non-integer argument reported one
      per line (and then no total is checked), else the total checked against the floor,
      else the parsed per-cluster counts. Single clusters may be negative. */
  function ServiceUnitsValid(args: map<string, string>, greaterThanTenThousand: bool): (r: Either<map<Cluster, int>>)
    requires HasArgs(args)
    ensures r.Right? ==> HasClusters(r.value) && Total(r.value) >= MinimumTotal(greaterThanTenThousand)
  {
    var lefts := Complaints(args, CLUSTERS);
    if lefts != [] then Left(Join(lefts, "\n"))
    else
      ComplaintsSpec(args, CLUSTERS);
      NonIntegerClustersSpec(args, CLUSTERS);
      ParsedArgsSpec(args, CLUSTERS);
      var result := ParsedArgs(args, CLUSTERS);
      var total := Total(result);
      if greaterThanTenThousand && total < MINIMUM_TOTAL_SUS then
        Left("Total SUs should exceed 10000 SUs, got `" + IntToString(total) + "`")
      else if total <= 0 then
        Left("Total SUs should be greater than zero, got `" + IntToString(total) + "`")
      else Right(result)
  }

  /** When some argument is not an integer, every such argument is reported and no total
      is checked. */
  lemma ServiceUnitsValidReports(args: map<string, string>, greaterThanTenThousand: bool)
    requires HasArgs(args)
    ensures !AllIntegers(args) ==>
      ServiceUnitsValid(args, greaterThanTenThousand) == Left(Join(Complaints(args, CLUSTERS), "\n"))
  {
    if !AllIntegers(args) {
      ComplaintsSpec(args, CLUSTERS);
      NonIntegerClustersSpec(args, CLUSTERS);
      var bad := NonIntegerClusters(args, CLUSTERS);
      assert bad[0] in bad;
    }
  }

  /** The arguments are accepted exactly when every one is an integer and their total
      reaches the minimum. */
  lemma ServiceUnitsValidAccepts(args: map<string, string>, greaterThanTenThousand: bool)
    requires HasArgs(args)
    ensures ServiceUnitsValid(args, greaterThanTenThousand).Right? <==>
      && AllIntegers(args)
      && (var parsed := ParsedArgs(args, CLUSTERS);
          HasClusters(parsed) && Total(parsed) >= MinimumTotal(greaterThanTenThousand))
  {
    ComplaintsSpec(args, CLUSTERS);
    NonIntegerClustersSpec(args, CLUSTERS);
    ParsedArgsSpec(args, CLUSTERS);
    var bad := NonIntegerClusters(args, CLUSTERS);
    if bad != [] {
      assert bad[0] in bad;
    }
  }

  /** An accepted value holds, for every cluster, the integer its argument spells. */
  lemma ServiceUnitsValidValues(args: map<string, string>, greaterThanTenThousand: bool)
    requires HasArgs(args)
    ensures var r := ServiceUnitsValid(args, greaterThanTenThousand);
      r.Right? ==> forall c :: c in CLUSTERS ==> ParseInt(args[ArgKey(c)]) == Some(r.value[c])
  {
    ParsedArgsSpec(args, CLUSTERS);
  }

  /** The per-cluster loop of `check_service_units_valid`: it collects the complaints and
      the parsed counts side by side, then checks the total. */
  method CheckServiceUnitsValid(args: map<string, string>, greaterThanTenThousand: bool)
    returns (r: Either<map<Cluster, int>>)
    requires HasArgs(args)
    ensures r == ServiceUnitsValid(args, greaterThanTenThousand)
  {
    var lefts: seq<string> := [];
    var result: map<Cluster, int> := map[];
    for i := 0 to |CLUSTERS|
      invariant lefts == Complaints(args, CLUSTERS[..i])
      invariant result == ParsedArgs(args, CLUSTERS[..i])
    {
      var clus := CLUSTERS[i];
      assert CLUSTERS[..i + 1][..i] == CLUSTERS[..i];
      var parsed := ParseInt(args[ArgKey(clus)]);
      if parsed.Some? {
        result := result[clus := parsed.value];
      } else {
        lefts := lefts + [NonIntegerMessage(args, clus)];
      }
    }
    assert CLUSTERS[..|CLUSTERS|] == CLUSTERS;
    if lefts != [] {
      return Left(Join(lefts, "\n"));
    }
    ComplaintsSpec(args, CLUSTERS);
    NonIntegerClustersSpec(args, CLUSTERS);
    ParsedArgsSpec(args, CLUSTERS);
    var totalSus := Total(result);
    if greaterThanTenThousand && totalSus < MINIMUM_TOTAL_SUS {
      return Left("Total SUs should exceed 10000 SUs, got `" + IntToString(totalSus) + "`");
    } else if totalSus <= 0 {
      return Left("Total SUs should be greater than zero, got `" + IntToString(totalSus) + "`");
    }
    return Right(result);
  }

  // ---------------------------------------------------------------------------
  // Cluster associations

  /** The clusters among `cs` on which the account has no association, in order. */
  function MissingAssociations(associated: set<Cluster>, cs: seq<Cluster>): (missing: seq<Cluster>)
    ensures forall c :: c in missing <==> c in cs && c !in associated
  {
    if cs == [] then []
    else
      var c := cs[|cs| - 1];
      MissingAssociations(associated, cs[..|cs| - 1]) + if c in associated then [] else [c]
  }

  /** Listed in cluster order, the missing clusters are reported in cluster order, each once. */
  lemma {:induction false} MissingAssociationsOrdered(associated: set<Cluster>, cs: seq<Cluster>)
    requires InClusterOrder(cs)
    ensures InClusterOrder(MissingAssociations(associated, cs))
  {
    if cs != [] {
      var front, c := cs[..|cs| - 1], cs[|cs| - 1];
      MissingAssociationsOrdered(associated, front);
      var missing := MissingAssociations(associated, front);
      forall k | 0 <= k < |missing|
        ensures Rank(missing[k]) < Rank(c)
      {
        assert missing[k] in missing;
        var m :| 0 <= m < |front| && front[m] == missing[k];
        assert cs[m] == missing[k];
      }
    }
  }

  /** The clusters without an association, as the command reports them, come in cluster
      order, each once. */
  lemma MissingInClusterOrder(associated: set<Cluster>)
    ensures InClusterOrder(MissingAssociations(associated, CLUSTERS))
  {
    ClustersInOrder();
    MissingAssociationsOrdered(associated, CLUSTERS);
  }

  /** Whether the account has an association on every cluster. `associated` is the set of
      clusters on which the scheduler's account manager lists one. */
  function AssociationsExist(account: string, associated: set<Cluster>): (r: Either<string>)
    ensures r.Right? <==> forall c :: c in CLUSTERS ==> c in associated
    ensures r.Right? ==> r.value == account
  {
    var missing := MissingAssociations(associated, CLUSTERS);
    if missing != [] then
      assert missing[0] in missing;
      Left("Associations missing for account `" + account + "` on clusters `" + Join(Names(missing), ",") + "`")
    else Right(account)
  }

  /** The per-cluster loop that collects the clusters lacking an association. */
  method AccountAndClusterAssociationsExists(account: string, associated: set<Cluster>) returns (r: Either<string>)
    ensures r == AssociationsExist(account, associated)
  {
    var missing: seq<Cluster> := [];
    for i := 0 to |CLUSTERS|
      invariant missing == MissingAssociations(associated, CLUSTERS[..i])
    {
      assert CLUSTERS[..i + 1][..i] == CLUSTERS[..i];
      if CLUSTERS[i] !in associated {
        missing := missing + [CLUSTERS[i]];
      }
    }
    assert CLUSTERS[..|CLUSTERS|] == CLUSTERS;
    if missing != [] {
      return Left("Associations missing for account `" + account + "` on clusters `" + Join(Names(missing), ",") + "`");
    }
    return Right(account);
  }
}
