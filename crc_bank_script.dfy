/** The single-command script: it keeps only the proposal table and knows only `insert`.
    Its insert spells out the proposal durations itself instead of asking the helpers, and
    it is proved to write exactly what the ledger's `insert` writes. */
module CrcBankScript {
  import opened Constants
  import opened Utils
  import opened Records
  import CrcBank

  class ScriptBank {
    var proposals: map<string, Proposal>

    ghost predicate Valid()
      reads this
    {
      CrcBank.ProposalsValid(proposals)
    }

    /** An empty proposal table. */
    constructor ()
      ensures Valid() && proposals == map[]
    {
      proposals := map[];
    }

    method Insert(
      typeName: string, account: string, args: map<string, string>, associated: set<Cluster>, today: int)
      returns (r: Either<()>)
      requires Valid() && HasArgs(args)
      modifies this
      ensures Valid()
      ensures CrcBank.Committed(old(proposals), proposals, account,
        CrcBank.InsertOutcome(old(proposals), typeName, account, args, associated, today), r)
    {
      var x := AccountExistsInTable(proposals, account);
      if x.Right? {
        return Left(CrcBank.AlreadyExistsMessage(account));
      }
      var associatedAccount :- AccountAndClusterAssociationsExists(account, associated);
      var proposalType :- ParseProposalType(typeName);
      var proposalDuration := if proposalType == ProposalType.Proposal then 365 else 122;
      var endDate := today + proposalDuration;
      var sus :- CheckServiceUnitsValid(args, true);
      var toInsert := CrcBank.WriteClusterSus(map[], sus);
      proposals := proposals[account := Proposal.Proposal(proposalType, Zero, today, endDate, toInsert)];
      r := Right(());
    }

    /** The script's dispatch: `insert` is the only command it knows; any other leaves the
        table alone. */
    method Run(
      insertCommand: bool, typeName: string, account: string, args: map<string, string>,
      associated: set<Cluster>, today: int)
      returns (r: Either<()>)
      requires Valid() && HasArgs(args)
      modifies this
      ensures Valid()
      ensures insertCommand ==> CrcBank.Committed(old(proposals), proposals, account,
        CrcBank.InsertOutcome(old(proposals), typeName, account, args, associated, today), r)
      ensures !insertCommand ==> r == Right(()) && proposals == old(proposals)
    {
      if insertCommand {
        r := Insert(typeName, account, args, associated, today);
      } else {
        r := Right(());
      }
    }
  }
}
