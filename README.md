# crc-bank allocation ledger, in Dafny

This project models the allocation ledger of crc-bank. The ledger holds two tables:

- a **proposal** table, with one row per account;
- an **investment** table, holding any number of rows per account.

A proposal row has a type (`proposal` or `class`), the usage level last recorded for it by the usage check (`percent_notified`), a start day, an end day, and one service-unit (SU) limit per cluster (`smp`, `mpi`, `gpu`, `htc`). An investment row covers five years. Per cluster it records:

- the invested total;
- the yearly share, a fifth of the total rounded up;
- the SUs currently available;
- the SUs withdrawn so far.

The command branches of `crc_bank.py` are read-check-write steps on these tables:

- `insert`, `investor`, `modify`, `add`, `change` and `date` change the tables;
- `check_sus_limit` and `check_proposal_end_date` decide whom to notify and which account to lock;
- `get_sus` prints an account's limits as comma-separated lines.

Each command first runs the validation helpers of `utils.py`. These helpers answer with `Right(value)` or `Left(reason)`. `unwrap_if_right` ends the command with the reason of a `Left`. In Dafny this is the `Either` type used with `:-`; `UnwrapIfRight` states what that does.

The model has these modules:

- **Constants**: the cluster list and per-cluster SU maps.
- **Text**: Python's `int()` on an argument, `str()`, `join` and splitting at a separator.
- **Utils**: `utils.py`.
- **Records**: the rows and the validity every written row has.
- **CrcBank**: the ledger, with one method per command on the class `Bank`. Each method performs its command step by step, with the source's per-cluster loops.
  - `insert`, `investor`, `modify`, `add`, `change`, `date` and `check_sus_limit` also have a pure *outcome* function. It states what the command writes or emits and which properties that value has. Each of these methods is proved to write exactly the outcome back and to keep the ledger invariant.
  - `check_proposal_end_date` and `get_sus` write nothing and have no outcome function. `Bank.CheckProposalEndDate` and `Bank.GetSus` state their results in their own contracts.
- **CrcBankScript**: the stand-alone `crc-bank.py` script. Its `insert` is proved to write the same row as the ledger's `insert`.

The central invariant, `LedgerValid`, has three parts:

- every proposal's SUs sum to at least 10000;
- its period is as long as its type prescribes;
- every investment row is as `investor` wrote it, and belongs to an account with a proposal.

Every command keeps this invariant. From it, `AvailableSus` is at least 10000, so the usage percentage computed in `check_sus_limit` never divides by zero. `PercentUsage` demands a positive divisor, and the verifier checks every call.

The usage check stores whatever level `find_next_notification` gives whenever it differs from the stored one, and mails the owner each time. A lower level is stored too, for example after `add`, `modify` or `investor` raised the available SUs. So `percent_notified` does not only grow: it follows whatever level `find_next_notification` returns, lower as well as higher (`SusLimitLowersLevel`). The model assumes nothing about that function, not even that it grows with the percentage. A design in which the level never drops below the one stored before is not what this code does.

Days are integers: the code only ever shifts dates by whole days.

## Model

| member | source | states |
|---|---|---|
| Constants.Name | constants.py:8 | each cluster has a non-empty name without a comma, so the names can be comma-joined |
| Constants.ClustersDistinct | constants.py:8 | no cluster is listed twice, so a loop over the clusters writes each column once |
| Constants.AllClustersListed | constants.py:8 | every cluster is in the list, so a map with an entry per listed cluster has every key |
| Constants.ClustersInOrder | constants.py:8 | the cluster list is in its own order: `Rank` counts each cluster's place in it |
| Constants.TotalColumns | crc_bank.py:253 | `Total`, the total SUs of a per-cluster row, is its four cluster columns added up, as the totals at crc_bank.py:253 and utils.py:40 compute them |
| Constants.SumOverPointwise | crc_bank.py:195-196 | the sum of a cluster-wise sum is the sum of the two sums |
| Text.ParseInt | utils.py:33 | `int()` on an argument; an empty or all-whitespace argument is never an integer |
| Text.ParseIntSyntax | utils.py:33 | `int(s)` gives `n` exactly when `s` is whitespace, an optional sign, a digit run (single underscores between digits allowed) spelling the magnitude of `n`, and whitespace |
| Text.IntToString | crc_bank.py:319-327 | `str(n)`: non-empty, digits with a leading minus exactly for negative `n`; `ParseIntToString` is its inverse |
| Text.ParseIntToString | utils.py:33 | `int(str(n)) == n` for every integer: a printed SU count reads back as itself |
| Text.IntStringsDecode | crc_bank.py:319 | every rendered SU count in a list reads back as that count |
| Text.Join | crc_bank.py:318-328 | `sep.join(parts)`: empty for no parts, and starts with the first part; `SplitJoin` is its inverse |
| Text.SplitJoin | crc_bank.py:318-320 | splitting a comma-joined line gives back its fields when no field holds a comma |
| Text.CsvLineFields | crc_bank.py:318-320 | a line `tag,` followed by comma-joined fields splits into the tag followed by the fields |
| Utils.UnwrapIfRight | utils.py:12-25 | `Right`/`Left` with `:-` as `unwrap_if_right`: a `Left` ends the command with its reason unchanged, whatever would have followed; a `Right` goes on with its value |
| Utils.ParseProposalType | utils.py:100-106 | `Right` exactly for `"proposal"` and `"class"`, each mapped to its own type; any other string gives a `Left` naming it |
| Utils.ParseProposalTypeArgument | utils.py:100-106 | each type's spelling parses back to that type |
| Utils.GetProposalDuration | utils.py:109-110 | 365 days exactly for a proposal, 122 for a class; either is longer than the 90-day warning lead |
| Utils.CheckDateValid | utils.py:119-122 | `Right(day)` exactly when the day is not after today |
| Utils.AccountExistsInTable | utils.py:63-68 | `Right(row)` exactly when the account has a row, with that row; otherwise the not-in-database message |
| Utils.NonIntegerClustersSpec | utils.py:31-37 | exactly the clusters whose argument is not an integer are reported |
| Utils.NonIntegerClustersOrdered | utils.py:31-37 | the offending clusters are reported in cluster order, each once |
| Utils.ReportedInClusterOrder | utils.py:31-37 | the clusters the command reports as non-integer, checked over the cluster list, come in cluster order, each once |
| Utils.ComplaintsSpec | utils.py:35-37 | one complaint per offending cluster, naming it and its argument, in cluster order |
| Utils.ParsedArgsSpec | utils.py:31-33 | exactly the clusters whose argument parses get an entry, holding the parsed integer |
| Utils.ServiceUnitsValid | utils.py:28-45 | an accepted value has an entry for every cluster; its total is at least 10000 when the floor applies and positive otherwise |
| Utils.ServiceUnitsValidReports | utils.py:38-39 | with any non-integer argument the result is the complaints joined by newlines; no total is checked |
| Utils.ServiceUnitsValidAccepts | utils.py:40-45 | `Right` exactly when every argument is an integer and the total reaches the minimum; single clusters may be negative |
| Utils.ServiceUnitsValidValues | utils.py:31-45 | an accepted value holds, per cluster, the integer its argument spells |
| Utils.CheckServiceUnitsValid | utils.py:28-45 | the per-cluster loop that collects complaints and parsed values returns exactly `ServiceUnitsValid` |
| Utils.MissingAssociations | utils.py:49-55 | a cluster is reported exactly when it is listed and has no association |
| Utils.MissingAssociationsOrdered | utils.py:49-55 | the clusters without an association are listed in cluster order, each once |
| Utils.MissingInClusterOrder | utils.py:49-55 | the clusters the command reports as without an association come in cluster order, each once |
| Utils.AssociationsExist | utils.py:48-60 | `Right(account)` exactly when every cluster has an association |
| Utils.AccountAndClusterAssociationsExists | utils.py:48-60 | the loop collecting clusters without an association returns exactly `AssociationsExist` |
| Records.CeilFifth | crc_bank.py:117-118 | `ceil(x/5)`: five shares cover `x`, and one share less would not |
| Records.CeilFifthSum | crc_bank.py:115-119 | five times the summed yearly shares cover the summed investment |
| Records.InvestmentCurrentBound | crc_bank.py:115-119 | an investment as written makes at least 2000 SUs currently available |
| Records.InvestmentsOfSpec | crc_bank.py:255 | every row found is one of the account's investment rows, and every such row is found |
| Records.InvestmentsOfValid | crc_bank.py:255 | the rows found in a table of valid investment rows are valid |
| Records.InvestmentsOfCount | crc_bank.py:255 | each of the account's rows is found as many times as the table holds it; no other row is found |
| Records.InvestmentsOfAppend | crc_bank.py:255 | rows are found in table order: finding in two consecutive stretches and concatenating equals finding in the whole |
| Records.InvestedSus | crc_bank.py:256-257 | the SUs available from a list of investment rows are at least 2000 per row |
| Records.AvailableSus | crc_bank.py:253-257 | the SUs available to an account in a valid ledger are at least 10000, hence positive |
| CrcBank.LedgerValid | crc_bank.py:54-121 | the ledger invariant: every proposal has every cluster, at least 10000 SUs in total and the period its type prescribes; every investment row is as `investor` writes it and belongs to an account with a proposal |
| CrcBank.LedgerValidAppend | crc_bank.py:121 | adding a valid investment row for an account with a proposal keeps the ledger invariant |
| CrcBank.InsertOutcome | crc_bank.py:54-83 | fails with the already-exists message when the account has a proposal; succeeds exactly when associations, type and SUs are valid; the new row has level Zero, start today, end today plus the type's duration, the validated SUs, and is valid |
| CrcBank.InvestorOutcome | crc_bank.py:89-121 | needs an existing proposal, associations and valid SUs; the row has years 1, end start + 1825, per cluster a yearly share `ceil(total/5)` equal to the current SUs, nothing withdrawn, and is valid |
| CrcBank.ModifyOutcome | crc_bank.py:156-176 | replaces the limits, restarts the period today with the stored type's duration, keeps type and level, and the row stays valid |
| CrcBank.AddedSus | crc_bank.py:195-196 | each cluster gets the old limit plus the added amount, and the totals add up |
| CrcBank.AddOutcome | crc_bank.py:182-197 | raises each limit by exactly the given amount, keeps dates, type and level; the total strictly grows and the row stays valid |
| CrcBank.ChangeOutcome | crc_bank.py:203-216 | replaces the limits, keeps dates, type and level, and the row stays valid |
| CrcBank.DateOutcome | crc_bank.py:222-239 | succeeds exactly for a day not after today; start becomes that day, end that day plus the stored type's duration; limits, type and level stay |
| CrcBank.YearlyShares | crc_bank.py:117-118 | each cluster's yearly share is a fifth of its total, rounded up |
| CrcBank.NoWithdrawals | crc_bank.py:119 | nothing is withdrawn on any cluster |
| CrcBank.Sum | crc_bank.py:260-262 | the summed usage bounds every cluster's usage, and is zero exactly when every cluster's usage is |
| CrcBank.PercentUsage | crc_bank.py:270 | the usage percentage is defined for positive available SUs and is never negative; it is 0 exactly when nothing is used and at least 100 exactly when the usage reaches the available SUs |
| CrcBank.NotifiedLevel | crc_bank.py:253-273 | the level `find_next_notification` gives for used over available SUs; with no usage, the level for 0% |
| CrcBank.SusLimitOutcome | crc_bank.py:245-287 | an unknown account or one already at 100% fails with its message; otherwise it notifies exactly when the level changes and locks exactly when the new level is 100%, so a lock always comes with a notification; the events are the notification (if any) followed by the lock (if any), each at most once |
| CrcBank.SusLimitLowersLevel | crc_bank.py:273-285 | when the thresholds give a level below the stored one, the check mails the owner once and does not lock |
| CrcBank.SusLineDecodes | crc_bank.py:318-328 | every printed line has one field per cluster after its tag, and each field reads back as the row's SU count |
| CrcBank.WriteClusterSus | crc_bank.py:81-82 | the loop writing each cluster's column leaves the row's limits equal to the validated SUs |
| CrcBank.AddClusterSus | crc_bank.py:195-196 | the loop adding to each cluster's column yields the cluster-wise sum |
| CrcBank.InvestmentColumns | crc_bank.py:115-119 | the loop filling an investment's columns yields the totals, the rounded-up fifths twice, and zeros |
| CrcBank.TotalAvailableSus | crc_bank.py:253-257 | the accumulation over the proposal and its investment rows equals `AvailableSus` |
| CrcBank.UsedSus | crc_bank.py:260-262 | the accumulation over the clusters equals the summed usage |
| CrcBank.InvestmentLine | crc_bank.py:323-328 | an investment's line, built in a buffer with one slot per cluster, splits into `investment` and its current SUs in cluster order |
| CrcBank.InvestmentLines | crc_bank.py:322-328 | one line per investment row, in order, each splitting into `investment` and the row's current SUs |
| CrcBank.ProposalLines | crc_bank.py:318-320 | the header splits into `type` and the cluster names; the proposal line splits into `proposal` and its limits |
| CrcBank.Bank.Insert | crc_bank.py:54-83 | writes exactly `InsertOutcome`, or nothing with the same reason; investments untouched; ledger stays valid |
| CrcBank.Bank.Investor | crc_bank.py:89-121 | appends exactly `InvestorOutcome`'s row, or nothing with the same reason; existing rows and proposals untouched; ledger stays valid |
| CrcBank.Bank.Modify | crc_bank.py:156-176 | writes exactly `ModifyOutcome` back to the account's row, or nothing; ledger stays valid |
| CrcBank.Bank.Add | crc_bank.py:182-197 | writes exactly `AddOutcome` back to the account's row, or nothing; ledger stays valid |
| CrcBank.Bank.Change | crc_bank.py:203-216 | writes exactly `ChangeOutcome` back to the account's row, or nothing; ledger stays valid |
| CrcBank.Bank.Date | crc_bank.py:222-239 | writes exactly `DateOutcome` back to the account's row, or nothing; ledger stays valid |
| CrcBank.Bank.CheckSusLimit | crc_bank.py:245-287 | emits exactly `SusLimitOutcome`'s events and stores the new level only for the account; nothing else changes |
| CrcBank.Bank.CheckProposalEndDate | crc_bank.py:291-305 | warns exactly on end − 90 with the single warning, emits the expired notice followed by the lock exactly on the end day, nothing otherwise; never both, never a usage notification; in a valid ledger nothing is emitted before or on the start day |
| CrcBank.Bank.GetSus | crc_bank.py:310-328 | a header with the cluster names, the proposal line, then one line per investment row of the account with its current SUs |
| CrcBankScript.ScriptBank.Insert | crc-bank.py:39-71 | the script's insert, with its own inline durations, writes exactly what the ledger's `InsertOutcome` prescribes, or nothing with the same reason |
| CrcBankScript.ScriptBank.Run | crc-bank.py:39-78 | `insert` behaves as above; any other command returns without changing the table |

## Left out

- Calls to `sacctmgr` and `sshare` are not modelled. An account's associations are an input set: the clusters on which the account has an association. The usage that `get_raw_usage_in_hours` reports is the `usage` input of `SusLimitOutcome` and `Bank.CheckSusLimit`: a sequence of non-negative hours, one per cluster, in cluster order.
- `find_next_notification`, which maps a percentage to a threshold level, is not part of the shown code. It is a function parameter. No thresholds are assumed, and it is not assumed to grow with the percentage.
- The usage percentage is computed on exact reals. The model does not capture the rounding of Python floats.
- `notify_sus_limit`, `lock_account`, `three_month_proposal_expiry_notification` and `proposal_expires_notification` are called by the commands but are not part of this model. The checks return them as emitted events (`NotifySusLimit`, `LockAccount`, `ThreeMonthExpiryNotice`, `ProposalExpiredNotice`).
- `info`, `dump`, `log_action`, docopt's argument parsing, the sqlite connection and the e-mail templates are output and persistence plumbing. They are left out.
- The `print` of the script's unrecognised-command branch is left out. Only its effect is kept: the table does not change.
- CrcBank.Bank.GetSus: returns its lines instead of printing them.
- `check_date_valid`'s `strptime` parsing and its error path are left out. That error path formats a variable that is unbound when parsing fails. The model takes an already parsed day number, and its message renders that number instead of a datetime.
- `int()` accepts only ASCII digits and ASCII whitespace here. Python's `int()` also accepts other Unicode decimal digits and whitespace.
- The column widths of sqlite (64-bit integers) are not modelled: SU counts are unbounded integers.
- Records.CeilFifth: `ceil(x/5)` is exact integer arithmetic. Python computes `x/5` as a float first, which is exact only below 2^53.
- `crc_bank.py` calls `check_service_units_valid` and `account_and_cluster_associations_exists` without the cluster list that `utils.py` requires (utils.py:28, 48). The model passes the cluster list of constants.py:8, as the calls evidently intend.
- `crc_bank.py` sets investment rows' type to `ProposalType.Investor`, which `utils.py` does not define. Investment rows carry no type field.
- Both tables are modelled as keyed by account for proposals and as a sequence for investments. A proposal table with two rows for one account cannot arise through `insert`, and is not represented.
- `crc-bank.py` reads today's date twice, for the start and for the end. The model uses one day for both, so it does not capture a run that crosses midnight.
