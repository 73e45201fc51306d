# Keystore: a verified model

A Dafny 4.11 model of the Ethereum keystore module in `rust-lib/src`, with proofs of what it
promises about files, signatures and bookkeeping. `dafny verify dfyconfig.toml` checks it.

The five parts, hardest first, and the modules that hold them:

1. **The vault store and its repair** (`Tree`, `Recovery`, `VaultRuns`, `Opening`, `VaultStore`). A
   vault is encrypted into a stage named after its account and renamed out of it; `settle` repairs
   what a kill leaves. Recovery lands in the old vault or the new one, `settle` does exactly what it
   reports, and a vault opens for its own password and account and for nothing else.
2. **The layout authority** (`Layout`, `Scan`, `Coverage`, `Reports`, `Removal`, `Draining`). One
   function builds every path, one names every entry, one walk of an arbitrary tree files every
   entry somewhere a reader is shown, and which reports can be removed, one by one and in the end,
   is settled exactly.
3. **The approval ledger** (`Commitment`, `Grouping`, `Ambiguity`, `Rereading`, `CaseFold`,
   `Cutting`, `Folding`, `Folded`, `Approval`, `Shown`, `Telling`, `Handles`, `ApprovalRuns`, `Expiry`,
   `Decisions`). What is signed is what was last shown, once, and its results last until they are
   collected; every call is granted exactly when its record and the clock allow it; the lines shown
   tell each value that is signed and settle, on their own, everything signed but a transaction's fees. Of plain bundles, with no unit separator
   in a transaction's fields, the commitment settles everything but which `message` lines open a
   leg; against everything else that signs it also leaves open which legs are folded into a fee
   field that is not signed.
4. **Wallet bookkeeping** (`Wallet`, `WalletSteps`, `WalletEffects`, `WalletAnswers`, `WalletRuns`,
   `WalletIndices`, `WalletRaces`, `WalletOverlaps`, `WalletStore`) and the locked update under it (`Update`). In calls
   that do not overlap a record is down before a key and an index is handed out once, and exactly
   what overlapping costs is said below; a name over something held was paid for, and no update is
   lost.
5. **Text forms** (`Text`, `Hd`, `TxForm`, `Readings`). The BIP-44 path levels ("Path levels" section
   of BIP-44), the numbers, bytes and addresses of a transaction, and the encoding under the
   commitment.

Cryptography and the libraries are arguments (`Approval.Env`, `Wallet.Crypto`, `addrOf`): the
theorems hold for every hash, every case fold that agrees with ASCII, every signature scheme and
every derivation. So are clock readings, random bits and which of the host's operations fail.

## How it is put together

* Code that changes things in place is a class whose methods are proved equal to a specification
  function: `VaultStore.Keystore` (with a ghost `trail` of every state a kill can land in),
  `Scan.Collector`, `Approval.Approvals`, and `WalletStore.Store` (with a ghost `log` of every
  change). Loops of the source are loops here.
* The theorems are about those functions, over every tree, every run and every place a run can be
  cut. `Handles.Fate` is a second, independent reading of the ledger, as a map from handles, and
  the ledger is proved to follow it; `Hd.Spells`, `Hd.Denotes` and `Readings.SpellsTx` are grammars
  the parsers are compared with; `Shown` reads the lines back without the commitment, and `Telling`
  by those grammars; `Decisions.Standing` says what a record stands at by the clock without a sweep;
  `Update.Committed` is the sequential meaning the interleaved updates keep.
* In `Wallet` a call is the list of atomic changes it makes. A kill leaves a prefix, a failed
  import its prefix and then its rollback, and `Event` covers both.

## Where the code and its comments part

* Every reported path is said to stay removable (rust-lib/src/keystore.rs:496-498, 1136-1138). A
  removal succeeds exactly where three things hold (`Removal.ReportedIsRemovable`): the lock file
  can be opened for reading and writing, or created (`Reports.LockAvailable`); the directory that
  holds the path can be written; and nothing below the path stops a recursive removal, since only
  the named directory is opened and not those in it. A stray directory with one inside that nobody
  may open is reported and refused (`Removal.ShutInsideIsRefused`), and so is a directory at
  `.lock` (`Removal.LockDirectoryIsADeadEnd`). A refusal leaves the named directory open, with only
  what yields gone from it (`Removal.RefusedRemoval`).
* Removing reports, in any order and whatever the refusals leave, can end with none exactly where
  nothing is in the way (`Draining.DrainableExactly`, `Draining.DrainingEndsClean`): no directory
  four or more levels down fails to list or is closed to changes with something in it, and no
  directory that lists, is closed to changes and is the root or explained directly holds something
  unexplained or an interrupted document. A directory nobody may open four levels down is a dead
  end (`Draining.ADeepOneStays`), and so is a link in a directory of keys closed to changes
  (`Draining.AHeldOneStays`).
* A deleted account stays deleted exactly when no openable staged copy of it is left behind
  (`Recovery.DeletionHolds`); otherwise the next `settle` brings it back. Any run can go on to
  that, by a password change killed before its rename (`VaultRuns.ADeletionCanBeUndone`).
* The commitment's encoding is not injective over texts of several lines. Plain bundles that sign,
  with no unit separator in a trimmed transaction field, share an encoding exactly when they have
  the same atoms (`Grouping.SigningBundlesMeetExactly`): the same transactions, the same digests and
  the same lines of text, so that they differ, if at all, in which `message` lines open a leg. Among
  bundles whose committed fields and texts hold no unit separator, texts of any length, one has its
  encoding to itself exactly when no message directly follows a message or a digest, and no text or
  purpose has a line `message` between its first and its last (`Ambiguity.AloneExactly`). Two such
  bundles are told apart whole as soon as no line after the first of any text is `message`
  (`Ambiguity.PlainBundlesAreDetermined`).
* Nor is it injective over transaction fields. An EIP-1559 transaction is signed without its gas
  price and a legacy one without its two fee caps (rust-lib/src/keystore.rs:635-670), the commitment
  covers them, and neither the request nor the render looks at what they hold
  (rust-lib/src/approval.rs:222-276, 524-544). So a transaction can hold there the text of the legs
  after it, and sign without them: an EIP-1559 one with an opaque digest in its gas price is encoded
  as itself and that digest (`Folded.ADigestFolds`), and one with a second transaction there as the
  two (`Folded.ATransactionFolds`); no EIP-1559 transaction directly followed by a plain transaction
  has its encoding to itself (`Folded.PairsFold`). Everything that signs with the text of a plain
  bundle is that bundle, its `message` lines read in some way, with some series of legs folded into
  the transactions before them (`Folded.SigningEncodingsMeetExactly`), so it signs no transaction or
  digest but the bundle's own, in their order, fees aside (`Folded.TransactionsAndDigestsAreAmong`).
* A plain bundle that signs is told apart from everything else that signs exactly when nothing of
  either kind can be done to it (`Folded.SigningAloneExactly`). Its texts, of at most 8 KiB, allow
  none of a few changes of two or three legs in a row within that limit: one divided, two put
  together, a `message` line handed on to the next leg or back, two such lines that face each other
  made a leg, or a leg of one such line given up to both sides. And no transaction is followed by a
  series that folds into it: one unchanged by the case fold that ends in a transaction or in a digest
  with an empty purpose; into a legacy transaction, which takes over the last one's gas price,
  only one that ends in a transaction whose gas price it can read.
* A record on display is said to have no time limit (docs/specs.md:1313-1316), and one that lapses to
  be one nobody acknowledged. While it is on display it has none (`Expiry.DisplayedNeverExpires`). Its
  minute runs from when it was offered all the same, and one that makes way for another on display
  lapses with the next call if that is over (`Decisions.DisplacedRecordsLapse`).
* Calldata is said to be shown in full, under its selector (rust-lib/src/approval.rs:531-537). Behind a
  mark written `0X` the mark is taken for two of its digits. The lines tell the bytes and their first
  four exactly where there is no such mark (`Telling.SelectorExactly`).
* The record is said to be down before the key (rust-lib/src/keystore.rs:1621-1623), and so it is in
  calls that do not overlap (`WalletSteps.RecordBeforeKey`). A removal that sees nothing held can
  come between the two, and the key then lands without its record. For a wallet that holds nothing,
  a key never is without its record in any interleaving exactly when nobody is part-way to putting
  one there (`WalletOverlaps.RecordBeforeKeyExactly`).
* A failed import is said to leave no key without a record (rust-lib/src/keystore.rs:1622-1624).
  Its removals are not looked at, so it leaves one exactly when the record went and the key did not
  (`WalletSteps.WhenAFailedImportStrands`).
* The effective next index is read off two files. It never decreases over calls that make all
  their changes. A derivation that fails or is killed between the account's record and the bump
  can be undone by an import of the same key (`WalletIndices.EffectiveCanFall`); losing a record
  lowers the index exactly when that record alone holds the top index and the group does not
  remember it (`WalletIndices.LosingLowersExactly`). The climbing of returned indices
  (`WalletRuns.IndicesClimb`) needs no such condition. It does need one call to end before the next
  begins: across actors, a derivation that begins after another's last change returns a higher
  index (`WalletOverlaps.IndicesClimbAcross`), and two that begin on the same books return one
  index, and the vault of the one that ends last replaces the other's
  (`WalletOverlaps.TwoDerivationsCollide`).
* Checking and then acting is said to be safe for a removal (rust-lib/src/keystore.rs:1805-1806).
  Across processes it is safe exactly while nobody is part-way through giving the wallet something
  (`WalletRaces.SafeExactlyWhenNobodyFeeds`); a derivation that walks past an account counts, even
  if that account is on record for another wallet just now. One that has opened its key can be
  overtaken by a forget and a removal (`WalletRaces.ARemovalCanBeOvertaken`).

## Model

| member | source | states |
|---|---|---|
| Hd.NewPath | rust-lib/src/hd.rs:57-70 | accepts exactly account and index below 2^31 with change 0 or 1 |
| Hd.ComponentExact | rust-lib/src/hd.rs:105-127 | a level parses to an index iff it is one of its spellings: digits with any leading zeros, bare or marked `'` or `h`, below 2^31 |
| Hd.SplitPathExact | rust-lib/src/hd.rs:129-142 | a string splits into levels iff it is `m` and those levels' spellings joined by `/` |
| Hd.ParseAcceptsExactly | rust-lib/src/hd.rs:72-80 | a path parses to `p` iff it spells 44', 60', a hardened account, then `p`'s change and index, unhardened and in range |
| Hd.PrefixAcceptsExactly | rust-lib/src/hd.rs:82-87 | the same for the three-level account prefix |
| Hd.PathRoundTrip | rust-lib/src/hd.rs:72-103 | printing a valid path and parsing it gives the path back |
| Hd.ReprintKeepsThePath | rust-lib/src/hd.rs:94-103 | any accepted spelling, printed again, parses to the same path |
| Hd.PrefixRoundTrip | rust-lib/src/hd.rs:82-92 | printing an account prefix and parsing it gives the account back |
| TxForm.FieldsDetermineTheTransaction | rust-lib/src/keystore.rs:602-674 | two submissions that agree on the committed text of every field, and both sign, sign one transaction: chain, recipient kind, nonce, value, gas, data and fees |
| Readings.FirstDigitWeighs | rust-lib/src/keystore.rs:112-145 | a numeral is read most significant digit first |
| Readings.ReadNumberExactly | rust-lib/src/keystore.rs:112-145 | a field reads as a number iff it is blank, for zero, or digits spell it, hexadecimal behind a mark and decimal without, one `+` allowed, below the limit |
| Readings.HexDecodeExactly | rust-lib/src/keystore.rs:801-809 | text is decoded to bytes iff it spells them, two digits a byte in either case and the larger first |
| Readings.BytesRoundTrip | rust-lib/src/keystore.rs:801-809 | bytes printed in either case, bare or behind `0x` or `0X`, are read back |
| Readings.ReadAddressExactly | rust-lib/src/keystore.rs:147-157 | an address is read iff twenty bytes are spelled, and refused as one otherwise |
| Readings.ReadDigestExactly | rust-lib/src/keystore.rs:690-701 | a digest is read iff thirty-two bytes are spelled |
| Readings.SignedAsSpelled | rust-lib/src/keystore.rs:602-674 | a submission is signed as a transaction iff that is what it spells, field by field, fees of its mode included, recipient or creation, and no access list |
| Readings.RefusalsExactly | rust-lib/src/keystore.rs:602-674 | a refusal names the address iff there is to be one and what is there is none |
| Commitment.Feed | rust-lib/src/approval.rs:463-504 | the hasher is fed exactly the canonical encoding |
| Commitment.EncodedTransaction | rust-lib/src/approval.rs:463-489 | the whole text of one transaction: header, account, chain, and its ten fields in this order, each trimmed, folded and ended |
| Commitment.EncodedText | rust-lib/src/approval.rs:490-501 | the whole text of one message, and of one digest: its mark taken off, folded, ended, and then its purpose |
| Commitment.EncodingDeterminesTheBundle | rust-lib/src/approval.rs:463-504 | equal encodings mean the same account, as many legs, and each pair alike, for texts and purposes of any number of lines none of which, after the first, reads `tx`, `message` or `digest` |
| Commitment.EncodingDeterminesTheSignatures | rust-lib/src/approval.rs:459-504 | and each pair of legs that both sign, sign the same payload |
| Commitment.TransactionBundlesAreDetermined | rust-lib/src/approval.rs:468-489 | the same for bundles of transactions whose trimmed fields hold no unit separator, asked of the submitted text alone |
| Commitment.NewlinesInMessagesCollide | rust-lib/src/approval.rs:490-501 | one message with a `message` line in it and the two it splits into have one encoding, whatever the texts |
| Grouping.EncodingsMeetExactly | rust-lib/src/approval.rs:463-504 | of bundles whose committed fields and texts hold no unit separator: two encodings are one iff the accounts are one and the bundles have the same transactions, digests and lines of text in the same order, whatever the texts are |
| Grouping.SigningBundlesMeetExactly | rust-lib/src/approval.rs:463-504 | the same asked of plain bundles: legs that sign, purposes that can be shown, and no unit separator in a trimmed transaction field |
| Ambiguity.TransactionsAndDigestsAreFixed | rust-lib/src/approval.rs:468-501 | bundles with one encoding whose committed fields and texts hold no unit separator sign the same transactions and digests in the same order, whatever their texts are |
| Ambiguity.AloneExactly | rust-lib/src/approval.rs:490-501 | among bundles whose committed fields and texts hold no unit separator, one has its encoding to itself iff no free text directly follows free text and no text has a `message` line between its first and its last |
| Ambiguity.PlainBundlesAreDetermined | rust-lib/src/approval.rs:490-501 | two bundles whose committed fields and texts hold no unit separator are told apart whole where no line after the first of any text is `message` |
| Folded.SigningAloneExactly | rust-lib/src/approval.rs:468-501 | a plain bundle that signs is the only one of everything that signs, up to signing alike leg by leg, with its encoding iff no two or three legs in a row can be read another way within 8 KiB a text and no transaction is followed by legs that fold into a field it is not signed by |
| Folded.SigningEncodingsMeetExactly | rust-lib/src/approval.rs:463-504 | whatever signs shares its encoding with a plain bundle iff the accounts are one and, its transactions unfolded into themselves and the legs they hold, it is a plain bundle with the same transactions, digests and lines of text |
| Folded.TransactionsAndDigestsAreAmong | rust-lib/src/approval.rs:463-504 | whatever signs under a plain bundle's encoding signs only transactions and digests of that bundle, in its order, alike but for a transaction's fees |
| Folded.NotPlainIsNotAlone | rust-lib/src/approval.rs:468-489 | a bundle that signs with a plain one's text, and is not plain itself, shares it with a plain one of more legs |
| Folded.FoldDoubles | rust-lib/src/keystore.rs:635-670 | where a series folds, there is another bundle that signs with the same text, of fewer legs |
| Folded.PairsFold | rust-lib/src/keystore.rs:635-670 | an EIP-1559 transaction directly followed by another plain one folds |
| Folded.ADigestFolds | rust-lib/src/keystore.rs:635-670 | an EIP-1559 transaction with an opaque digest in its gas price signs, and is encoded as it and that digest |
| Folded.ATransactionFolds | rust-lib/src/keystore.rs:635-670 | the same with a whole plain transaction in the gas price |
| Cutting.CutAfterMark | rust-lib/src/approval.rs:485-488 | in the text of plain legs, a unit separator with a newline after it ends a transaction, or a digest and an empty first line of its purpose |
| Commitment.DisplayableIsDelimited | rust-lib/src/keystore.rs:775-799 | displayable text cannot hold the separator of the encoding |
| Approval.HandleCarriesItsMint | rust-lib/src/approval.rs:600-607 | the mint counter can be read off a handle, whatever the random part is |
| Approval.CtEq | rust-lib/src/approval.rs:590-596 | the comparison that looks at every byte decides equality |
| Approval.Render | rust-lib/src/approval.rs:509-563 | the lines shown are those of the intent, leg by leg, or the first refusal (what they tell is `Telling.RenderTold`) |
| Telling.NumberTold | rust-lib/src/approval.rs:565-579 | a number field that reads is shown as it was submitted, with a decimal numeral of its value beside it iff it is hexadecimal and below 2^128 |
| Telling.DataIsTold | rust-lib/src/approval.rs:525-538 | calldata that reads is shown digit by digit, behind its first eight digits where there are as many |
| Telling.SelectorExactly | rust-lib/src/approval.rs:531-537 | the selector line is the first four bytes of the calldata, and the data line all of them, iff it is not marked `0X` |
| Telling.LegTold | rust-lib/src/approval.rs:509-563 | the lines of a leg that signs tell, by a line each, the chain, recipient, value, nonce, gas limit and calldata, the text and its bytes, or the digest and its purpose, that go under the signature |
| Telling.RenderTold | rust-lib/src/approval.rs:509-563 | a bundle that signs is shown, and its lines tell the account, the commitment, the count, and then each leg in its order and nothing besides |
| Telling.ClaimTold | rust-lib/src/approval.rs:510-515 | what the requester claims is one line, its purpose without the white space around it, or no line |
| Telling.SignedIsTold | rust-lib/src/approval.rs:301-379 | in every run a granted approval signs, leg by leg, the payload that the lines of the last display told |
| Telling.LegsShownExactly | rust-lib/src/approval.rs:541-556 | a bundle is shown iff each text and purpose in it can be |
| Telling.MisleadsExactly | rust-lib/src/keystore.rs:783-791 | the characters refused are the control characters but three, and the sixteen that are displayed as nothing or change how others are |
| Telling.DisplayableExactly | rust-lib/src/keystore.rs:769-799 | text can be shown iff it is at most 8 KiB of UTF-8 of none of these characters |
| Telling.Utf8BytesExactly | rust-lib/src/keystore.rs:775-781 | a character counts as many bytes as UTF-8 needs to reach it |
| Shown.ShownNumber | rust-lib/src/approval.rs:565-579 | two number fields shown alike, where both read, read as the same number |
| Shown.ShownDataLines | rust-lib/src/approval.rs:525-538 | two calldata fields shown alike, where both read, are the same bytes |
| Shown.LinesDetermineTheSignatures | rust-lib/src/approval.rs:506-563 | two bundles shown by the same lines name one account and sign, leg by leg, the same text, the same digest, or transactions alike in chain, recipient kind, nonce, gas, value and data |
| Shown.FeesAreNotAmongTheLines | rust-lib/src/approval.rs:524-544 | two transactions that differ in their fees alone are shown by the same lines and signed differently |
| Approval.CollectInOrder | rust-lib/src/approval.rs:365-372 | a bundle's results are its legs' results, one for one and in order |
| Approval.SignAll | rust-lib/src/approval.rs:365-372 | the signing loop computes that list, or its first failure |
| Approval.Retained | rust-lib/src/approval.rs:208-211 | sweeping keeps exactly the records with uncollected results or within retention, in order |
| Approval.Approvals.Sweep | rust-lib/src/approval.rs:195-212 | the swept ledger: expiry, dating and retention in one pass over the list (what that comes to is `Expiry.AbandonedOffersExpire`, `Expiry.SettlementsAreForgotten` and `Decisions.LooksExactly`) |
| Approval.Approvals.OpenRequest | rust-lib/src/approval.rs:222-276 | the whole new ledger and reply of a request, refusals included |
| Approval.Approvals.AcknowledgeRecord | rust-lib/src/approval.rs:301-329 | the whole new ledger and reply: one record shown, all others demoted |
| Approval.Approvals.ApproveRecord | rust-lib/src/approval.rs:333-379 | the whole new ledger and reply; a failure at any leg leaves the swept ledger |
| Approval.Approvals.RejectRecord | rust-lib/src/approval.rs:381-391 | the whole new ledger and reply of a rejection |
| Approval.Approvals.StatusOf | rust-lib/src/approval.rs:394-407 | the bare state, for the receipt's holder |
| Approval.Approvals.Fetch | rust-lib/src/approval.rs:411-422 | the results, for the receipt's holder |
| Approval.Approvals.Ack | rust-lib/src/approval.rs:425-437 | results erased first, then the sweep |
| Approval.Approvals.CancelRecord | rust-lib/src/approval.rs:440-456 | a live record is cancelled, a settled one keeps its outcome, results go either way |
| Handles.StepOnHandles | rust-lib/src/approval.rs:195-456 | every entry point acts on the list as on a map from distinct handles |
| Handles.RepliesOnHandles | rust-lib/src/approval.rs:394-456 | what a requester is answered depends on its handle's record alone |
| Handles.DecisionsOnHandles | rust-lib/src/approval.rs:301-379 | the same for what an approver is answered |
| ApprovalRuns.RecordsAreSound | rust-lib/src/approval.rs:133-147 | in every run handles are distinct, results are present only on approved records, and the shown lines and the commitment are those of the stored intent |
| ApprovalRuns.HandlesAreNeverReused | rust-lib/src/approval.rs:258-260 | two requests never get one handle, even with constant random bits |
| ApprovalRuns.EveryRecordWasRequested | rust-lib/src/approval.rs:222-276 | every record holds the intent, requester and receipt digest of the request that was given its handle |
| ApprovalRuns.OutcomesAreFinal | rust-lib/src/approval.rs:381-391 | a settled outcome never changes |
| ApprovalRuns.OneOnDisplay | rust-lib/src/approval.rs:299-312 | at most one record is on display |
| ApprovalRuns.DisplayedWasLastShown | rust-lib/src/approval.rs:301-329 | the record on display is the one the last acknowledgement that found any returned |
| ApprovalRuns.SignedIsShown | rust-lib/src/approval.rs:301-379 | a granted approval follows an acknowledgement of its handle with none in between that found a record; that one returned the echoed bundle id and the lines of the very intent whose legs the results sign, in order, under the one opened signer |
| ApprovalRuns.DisplayedIsEchoed | rust-lib/src/approval.rs:355-359 | the displayed bundle id is a good echo of itself, with or without `0x` |
| ApprovalRuns.HonestPathSigns | rust-lib/src/approval.rs:222-379 | an offer acknowledged in time shows its bundle id, and an approval echoing it, with a password that opens the account and legs that sign, is granted |
| ApprovalRuns.SignedOnce | rust-lib/src/approval.rs:333-379 | no handle is granted twice |
| ApprovalRuns.ResultsWereGranted | rust-lib/src/approval.rs:375-378 | any results a record holds are those of an earlier granted approval of its handle |
| ApprovalRuns.ResultsLast | rust-lib/src/approval.rs:411-422 | every fetch with the receipt returns the same list at any later time, until a call with the receipt erases it |
| ApprovalRuns.ErasedForGood | rust-lib/src/approval.rs:425-456 | and never again after |
| ApprovalRuns.OutcomesLast | rust-lib/src/approval.rs:205-211 | a live record never vanishes, and for 120 s after it settles its requester is answered with the outcome |
| ApprovalRuns.RunsStayWithinCaps | rust-lib/src/approval.rs:231-248 | at most 16 live records, and 4 of one requester, after every call |
| Expiry.AbandonedOffersExpire | rust-lib/src/approval.rs:195-204 | an offer nobody claims is as it was, and answered so, until its time is over, and expired from the first call after that on |
| Expiry.AMinuteUnlessSet | rust-lib/src/approval.rs:57-57 | an offer stands a minute, or as long as was set last |
| Expiry.DisplayedNeverExpires | rust-lib/src/approval.rs:195-204 | a record on display that nobody decides, cancels or displaces stays, whatever the clock says |
| Expiry.SettlementsAreDated | rust-lib/src/approval.rs:201-203 | a settlement is dated by the first sweep that finds it |
| Expiry.SettlementsAreForgotten | rust-lib/src/approval.rs:205-211 | a dated settlement with nothing to collect is answered before 120 s are over, and is not found from then on |
| Expiry.RequestsAreTakenUpExactly | rust-lib/src/approval.rs:222-276 | a request is taken up iff it is well-formed, and fewer than sixteen records, and fewer than four of its requester, are on display or still have time |
| Expiry.TheLapsedKeepNobodyOut | rust-lib/src/approval.rs:230-247 | a requester all of whose offers have lapsed is within its own cap, however many they were |
| Decisions.AcknowledgedExactly | rust-lib/src/approval.rs:301-329 | an acknowledgement is granted iff its record is there and waits; that one is then on display, and each other that was waits again, even if it is refused |
| Decisions.ApprovedExactly | rust-lib/src/approval.rs:333-379 | an approval is granted if its record is on display, its own id is echoed, its account opens and each leg is signed, and then those signatures are what is held |
| Decisions.ApprovalsNeed | rust-lib/src/approval.rs:333-379 | and only then; otherwise the record is as it stood |
| Decisions.RejectedExactly | rust-lib/src/approval.rs:381-391 | a record can be turned down iff it is there and not settled, and that is then its outcome |
| Decisions.LooksExactly | rust-lib/src/approval.rs:394-422 | state and results are answered to the holder of the receipt alone, as the record stands at that instant |
| Decisions.ErasedExactly | rust-lib/src/approval.rs:425-456 | results are given up by the holder of the receipt alone, a live record is cancelled by it, and what is past its time then goes |
| Decisions.RequestsHandOut | rust-lib/src/approval.rs:258-260 | handle and receipt are the count of the mint behind two draws of random bits |
| Decisions.RequestedExactly | rust-lib/src/approval.rs:258-275 | a new record waits from the instant it was offered, with what was submitted and nothing signed |
| Decisions.DisplacedRecordsLapse | rust-lib/src/approval.rs:307-311 | a record that makes way on display when its time since the offer is over is expired by the next call |
| Decisions.EchoedExactly | rust-lib/src/approval.rs:357-361 | an echo is the id up to white space around it and any number of `0x` in front |
| Decisions.TokensDiffer | rust-lib/src/approval.rs:598-607 | a receipt or handle settles its random bits and count, and neither is ever the other |
| Layout.StageNameExact | rust-lib/src/layout.rs:341-350 | a directory name is a stage's iff it is that stage's name, so the three shapes never overlap |
| Layout.ClassifyInvertsRel | rust-lib/src/layout.rs:414-467 | an entry is classified as a slot's iff it sits at that slot's path and has its one kind |
| Layout.DocStageExact | rust-lib/src/layout.rs:414-431 | an interrupted document is exactly a file under the root with the staging prefix |
| Layout.SlotsAreRecognised | rust-lib/src/layout.rs:91-114 | every path the authority builds is named again by the scan, at one kind only |
| Layout.SlotsNeverSharePaths | rust-lib/src/layout.rs:91-114 | two different valid slots never share a path |
| Scan.Collector.FileEntry | rust-lib/src/layout.rs:545-565 | one entry is filed in its buckets and the rest is untouched |
| Scan.Collector.VisitDir | rust-lib/src/layout.rs:498-543 | the walk, entry by entry and in any order, files exactly the specified set |
| Scan.RunScan | rust-lib/src/layout.rs:476-490 | absent is empty, unreadable refuses, anything else is the walk |
| Coverage.WalkExact | rust-lib/src/layout.rs:498-565 | something is filed iff a visited entry files it for itself |
| Coverage.NothingIsInvisible | rust-lib/src/layout.rs:476-565 | for every tree a scan succeeds on, every entry at any depth is filed under its slot, explains itself, or is reported, itself or by a directory above it |
| Coverage.OneSeverity | rust-lib/src/layout.rs:545-565 | no path is both unexplained and possible key material |
| Coverage.SeverityExactly | rust-lib/src/layout.rs:386-412 | what is not explained is reported as a possible key iff a look inside does not rule it out, or it is in the directory of keys, or a name on its path is one of a key or its stage; otherwise as unexplained |
| Coverage.ExplainedSeverity | rust-lib/src/layout.rs:504-543 | what is explained is reported iff it is a directory not listed to its end |
| Coverage.LinksExactly | rust-lib/src/layout.rs:504-520 | every link the walk gets to is listed with where it leads, and nothing else is |
| Coverage.RelStrInjective | rust-lib/src/layout.rs:492-496 | joining listed names with `/` is injective |
| Coverage.RootBucketsExact | rust-lib/src/layout.rs:545-565 | vaults and stages are listed exactly where the root holds them |
| Coverage.SlotBucketsExact | rust-lib/src/layout.rs:545-565 | each of the six buckets of slots, live and staged keys among them, names an id iff the walk finds that slot's one kind at its path |
| Reports.ResolveReported | rust-lib/src/layout.rs:137-146 | the component loop accepts and resolves as specified |
| Reports.ReportedExact | rust-lib/src/layout.rs:137-146 | a string resolves to a path iff it is that path's report text, so what it accepts stays strictly under the root |
| Removal.ClearOut | rust-lib/src/keystore.rs:1135-1144 | one pass of a recursive removal takes everything iff every directory in it lists and lets go of what it holds; otherwise what does not yield is left, with its modes |
| Removal.RemovePath | rust-lib/src/keystore.rs:1129-1154 | succeeds iff the entry can be unlinked and everything strictly below it yields; a refusal leaves the directory open and the rest as a stopped removal leaves it |
| Removal.ReportedIsRemovable | rust-lib/src/keystore.rs:501-518 | an acknowledged removal of a reported path succeeds iff the lock can be taken, the directory that holds the path can be written, and nothing below the path is closed to listing or, holding something, to changes |
| Removal.AnswersExactly | rust-lib/src/keystore.rs:501-518 | a call answers not found iff nothing is reported there, refused iff it is not acknowledged or the lock is not to be had, and neither changes anything |
| Removal.RefusedRemoval | rust-lib/src/keystore.rs:1129-1154 | a refused removal leaves a remnant of what was named, opened, changes nothing beside it, and it still cannot be removed |
| Removal.ShutInsideIsRefused | rust-lib/src/keystore.rs:1135-1148 | a stray directory with one inside that nobody may open: reported, the lock free, and refused |
| Removal.LockDirectoryIsADeadEnd | rust-lib/src/keystore.rs:501-518 | a store with a directory at `.lock`: reported, and not removable |
| Removal.UnexplainedAllTheWayDown | rust-lib/src/layout.rs:433-467 | under a directory the layout does not explain it explains nothing |
| Removal.RemovalSparesVaults | rust-lib/src/keystore.rs:501-518 | a removal, however it ends, leaves every account vault as it was |
| Removal.RemovalSparesExplainedFiles | rust-lib/src/keystore.rs:501-518 | removing a path the layout does not explain, however it ends, takes no file it does explain, documents and keys included |
| Draining.MovesLessens | rust-lib/src/keystore.rs:1129-1154 | a call for a directory that is closed, or for a path that can be removed, leaves less to do, whatever it leaves |
| Draining.RemovalsAreBounded | rust-lib/src/keystore.rs:501-518 | in any run of calls, those that make headway are at most the entries and closed directories there were, every vault stays, and whether the store can be cleaned does not change |
| Draining.CallsDecideNothing | rust-lib/src/keystore.rs:501-518 | no call puts anything in the way or takes it out of the way |
| Draining.HeadwayIsThere | rust-lib/src/keystore.rs:501-518 | while nothing is in the way and something is reported, some report's call makes headway, whatever it leaves |
| Draining.DrainingEndsClean | rust-lib/src/keystore.rs:501-518 | calling until it gets nowhere ends with nothing reported iff nothing was in the way at the start |
| Draining.DrainableExactly | rust-lib/src/keystore.rs:501-518 | some run of calls ends with nothing reported iff nothing is in the way |
| Draining.ADeepOneStays | rust-lib/src/keystore.rs:1129-1141 | a directory nobody may open, four levels down or more: no run of calls ends with nothing reported |
| Draining.AHeldOneStays | rust-lib/src/keystore.rs:1129-1141 | the same for a link in a directory of keys that is closed to changes |
| Recovery.SettleExactly | rust-lib/src/keystore.rs:1333-1376 | name by name what settle leaves: existing vaults untouched, exactly the openable sole copies moved to their real path, all vault and import stages gone, nothing else changed |
| Recovery.PromotedExactly | rust-lib/src/keystore.rs:1340-1376 | a staged vault is brought to its path iff it is under the account's name in its stage, can be read, is finished or within bounds, and nothing is at the path but perhaps a link that leads nowhere |
| Recovery.SettleConverges | rust-lib/src/keystore.rs:1333-1376 | a second settle changes nothing |
| Recovery.KilledWriteSettles | rust-lib/src/keystore.rs:271-283 | a write killed after any step and settled: its account's path holds what recovery gives, its stage is gone, and everything else settles as if it had not begun |
| Recovery.PasswordChangeIsAtomic | rust-lib/src/keystore.rs:368-379 | killed after any step and settled, the vault is the whole old one before the rename and the whole new one from it on |
| Recovery.FirstWriteIsAllOrNothing | rust-lib/src/atomic.rs:111-162 | killed after any step and settled, a first vault is absent or whole |
| Recovery.KilledSettleResumes | rust-lib/src/keystore.rs:1340-1370 | a settle killed anywhere, between stages, after a rename or inside a removal at any depth, is finished by the next one with the same result |
| Recovery.KilledClearingSettles | rust-lib/src/atomic.rs:119-125 | a write killed while it removes an earlier leftover, and settled: its real path is as it was or holds that leftover, and nothing else changed |
| Recovery.KilledChangeUndoesDeletion | rust-lib/src/keystore.rs:541-553 | a password change killed before its rename, a deletion and a settle bring the account back under the new password |
| Recovery.DeletionHolds | rust-lib/src/keystore.rs:541-553 | a deleted account stays deleted after settle iff no openable copy of it was staged |
| VaultRuns.RunsKeepVaultsWhole | rust-lib/src/keystore.rs:271-283 | over any run of writes, settles and deletions, each write and settle killed anywhere, a real path is empty or holds, whole, what some write put there |
| VaultRuns.TheLastRenameStands | rust-lib/src/keystore.rs:271-283 | and it is the write that renamed last, if nothing deleted it since |
| VaultRuns.ADeletionCanBeUndone | rust-lib/src/keystore.rs:541-553 | any run can go on to bring a deleted account back |
| Opening.HeldExactly | rust-lib/src/keystore.rs:215-229 | an account is held iff a file is at its path; something else there is refused, nothing is not found, and a listing cut short says nothing |
| Opening.SignerExactly | rust-lib/src/keystore.rs:178-196 | a key is answered iff the directory holds it whole, under this password, as this account's, and each refusal has its one reason |
| Opening.WrittenOpens | rust-lib/src/keystore.rs:178-196 | a vault as it is written answers its own password with its key, and any other with a refusal |
| VaultStore.StagedVaultIsUsed | rust-lib/src/keystore.rs:231-242 | a vault an interrupted write left staged is brought to its path by the first use, and answers there as any other |
| VaultStore.Keystore.WriteVault | rust-lib/src/keystore.rs:271-283 | every state passed through, and the one left, for every point at which the host refuses: once it lands the vault opens for this password and no other, and where it does not nothing but the stage has changed; into a directory closed to changes nothing lands, and at most an earlier stage of the account is emptied and written into |
| VaultStore.Keystore.Settle | rust-lib/src/keystore.rs:1333-1370 | the directory becomes its settled form, what is reported promoted and swept is exactly that, and every state it passes through settles to the one it ends in |
| VaultStore.Keystore.HeldVault | rust-lib/src/keystore.rs:215-229 | the scan decides: a vault it names, something it reports there, or nothing |
| VaultStore.Keystore.UseVault | rust-lib/src/keystore.rs:234-242 | settles once, and only where no vault is named |
| VaultStore.Keystore.SignerFor | rust-lib/src/keystore.rs:178-196 | answers a key iff the directory then holds it at its own path, whole, under this password and as this account's; refuses what is not this account's, finds nothing iff nothing is there |
| VaultStore.Keystore.ChangePassword | rust-lib/src/keystore.rs:368-379 | succeeds iff the directory holds the account's key under the old password and the write lands; the key then opens for the new password alone, and at every state of the rewrite the real path holds the old vault or the new one, whole |
| VaultStore.Keystore.DeleteVault | rust-lib/src/keystore.rs:541-553 | deletes iff the directory holds the account's key under this password and can be changed; a refusal removes nothing |
| VaultStore.Keystore.RemoveUnexplained | rust-lib/src/keystore.rs:501-518 | the answer and the tree are those of one call, refusals included: after taking the lock it removes what was reported and acknowledged, or leaves of it what a stopped removal leaves |
| Update.NoLostUpdate | rust-lib/src/keystore.rs:1391-1401 | for any interleaving and any kills, every document is its committed edits in rename order |
| Update.ReadersSeeCommits | rust-lib/src/atomic.rs:164-176 | a reader that takes no lock sees the document as of some commit |
| Update.AcknowledgedExactlyOnce | rust-lib/src/keystore.rs:1391-1401 | an update that returned `Ok` is applied exactly once, one that returned an error never |
| Update.OneWriterAtATime | rust-lib/src/layout.rs:609-652 | two actors are never inside together; the owner of the lock is the one that is |
| Update.DocumentsStayWhole | rust-lib/src/keystore.rs:1197-1205 | no run truncates a document that parses, and none overwrites one that does not |
| Update.UpdatesGoThrough | rust-lib/src/keystore.rs:1391-1401 | an update nobody gets in the way of leaves what its change makes of a document that parses or is absent, returns, and frees the lock |
| Update.UnparsableRefuses | rust-lib/src/keystore.rs:1197-1205 | one of a document that does not parse is refused, writes nothing and frees the lock |
| Update.FailuresLeaveNothing | rust-lib/src/keystore.rs:1391-1401 | a step that fails takes its staged copy with it and leaves every document |
| Wallet.NextIndexIsLeast | rust-lib/src/keystore.rs:1431-1439 | the next index is the least number not below what the record remembers and past every index the wallet's accounts have |
| WalletSteps.RecordBeforeKey | rust-lib/src/keystore.rs:1596-1643 | wherever any wallet call that nothing overlaps is stopped, removals going through, every derivation key on disk, live or staged, has a record or had none before |
| WalletSteps.FailedImportLeavesNothing | rust-lib/src/keystore.rs:1620-1643 | a failed import whose rollback goes through leaves no record, name, key or stage of its id, and all others as they were |
| WalletSteps.WhenAFailedImportStrands | rust-lib/src/keystore.rs:1633-1642 | exactly when a failed import leaves a key without a record |
| WalletSteps.WalkTakesTheFirstFree | rust-lib/src/keystore.rs:1659-1680 | the walk answers iff one of 100 indices is derivable and free with all before it held, and then with that one |
| WalletSteps.DeriveNextTakesTheLeastFree | rust-lib/src/keystore.rs:1646-1681 | the index returned is at or above the group's next one, its address is not held, and every index in between is |
| WalletSteps.DeriveNextReplacesNothing | rust-lib/src/keystore.rs:1646-1681 | whatever the sidecars hold and wherever it is stopped, no held vault is replaced and no provenance of one rewritten |
| WalletSteps.WalkNotesWhatItPasses | rust-lib/src/keystore.rs:1665-1676 | every held account walked past ends up on record: as it was, or for this wallet where nothing was |
| WalletEffects.LandedImport | rust-lib/src/keystore.rs:1596-1631 | a landed import: its record with the index used up, its name, its key exactly where one was to be kept and nowhere staged, and the account, each under its own password |
| WalletEffects.DeletingUndoesDeriving | rust-lib/src/keystore.rs:1936-1954 | deleting a derived account undoes its derivation, but for the index, which stays used and is retired |
| WalletEffects.GivenUpWithoutTrace | rust-lib/src/keystore.rs:1807-1843 | a wallet without accounts, its key forgotten, can be removed, and its id is then as if never drawn |
| WalletAnswers.AddressExactly | rust-lib/src/keystore.rs:147-157 | a vault is looked up by the forty lower-case digits of its address, spelled in either case, bare or marked |
| WalletAnswers.NamedByItsBytes | rust-lib/src/keystore.rs:147-167 | these are the bytes a transaction's recipient is read as, off the same text |
| WalletAnswers.SignerOfExactly | rust-lib/src/keystore.rs:178-196 | an account's key is answered iff its vault holds it under this password and it is this account's |
| WalletAnswers.ImportedKey | rust-lib/src/keystore.rs:285-304 | an imported or random key: its vault under the caller's password, on record by its origin and for no wallet, and nothing else changed |
| WalletAnswers.ImportedKeyOpens | rust-lib/src/keystore.rs:300-304 | from then on its password signs with it and no other does |
| WalletAnswers.DeletingUndoesImporting | rust-lib/src/keystore.rs:541-553 | deleting it with that password restores the books, and with any other changes nothing |
| WalletAnswers.DeletionExactly | rust-lib/src/keystore.rs:541-553 | a deletion is answered iff the vault opens as this account's own; vault and record are then gone and the index of a derived account is retired; where there is no vault nothing happens |
| WalletAnswers.DerivableExactly | rust-lib/src/keystore.rs:1530-1569 | the wallet meant is the one named, or the only one that kept its key, and its prefix says the BIP-44 account |
| WalletAnswers.DeriveAtExactly | rust-lib/src/keystore.rs:1684-1711 | where the wallet's key opens, the account is its own and the address is free, the account at that index is there, under the caller's password and on record, and nothing is replaced |
| WalletAnswers.DeriveAtNeeds | rust-lib/src/keystore.rs:1684-1711 | and it is answered only there |
| WalletAnswers.DeriveAtReplacesNothing | rust-lib/src/keystore.rs:1703-1709 | wherever it is stopped, no vault and no record of one is replaced |
| WalletAnswers.DeriveNextExactly | rust-lib/src/keystore.rs:1646-1681 | of the wallet meant, with its key opened, the next derivation takes the first free of a hundred indices from the next one on, all before it taken, and is answered iff there is one |
| WalletAnswers.DerivedNext | rust-lib/src/keystore.rs:1646-1681 | the one vault a next derivation adds is the child key at the index it names, under the caller's password, on record for the wallet meant |
| WalletAnswers.ForgettingExactly | rust-lib/src/keystore.rs:1766-1801 | a key is forgotten, without a password, iff there is one at either path; neither is left, and the record, if it follows, says so |
| WalletAnswers.RemovingExactly | rust-lib/src/keystore.rs:1807-1843 | a wallet is removed iff it holds no key, torn copies included, and no account, and has a record or a name; these are then gone |
| WalletAnswers.NamingExactly | rust-lib/src/keystore.rs:1249-1303 | a wallet is named iff there is a trace of it and its price is paid: nothing to clear, one of its accounts where it has any, its key where it has only that; the trimmed name is then all that changed but an older build's |
| WalletAnswers.ImportingExactly | rust-lib/src/keystore.rs:1596-1612 | an import nothing stops is answered iff its path is one, its phrase a phrase, and a key to keep has a password |
| WalletAnswers.ImportedBooks | rust-lib/src/keystore.rs:1596-1631 | and the books then hold its record with the prefix of its account and the index past the one used, its name, its key and its account |
| WalletRuns.HoldingNothingIsForGood | rust-lib/src/keystore.rs:1100-1125 | no key at either path and no account: no later call, however it ends, gives the wallet either |
| WalletRuns.NamesOverHoldingsAreProved | rust-lib/src/keystore.rs:1249-1303 | a name over a wallet that holds something was written by its import or by a call that opened one of its vaults |
| WalletRuns.IndicesClimb | rust-lib/src/keystore.rs:1431-1448 | each index `derive_next_account` returns is above every one the wallet handed out before, whatever was deleted, killed or failed in between |
| WalletRaces.RacesStayEmpty | rust-lib/src/keystore.rs:1803-1806 | in every interleaving of calls and kills, a wallet that holds nothing, with nobody part-way through giving it something, goes on so |
| WalletRaces.SafeExactlyWhenNobodyFeeds | rust-lib/src/keystore.rs:1803-1806 | and it is safe iff nobody is, walks past held accounts included, in any state of calls under way |
| WalletRaces.ARemovalCanBeOvertaken | rust-lib/src/keystore.rs:1807-1843 | a run of three calls by two actors: a derivation that opened its key, overtaken by a forget and a removal, ends in an account with no record and no key |
| WalletOverlaps.RecordBeforeKeyExactly | rust-lib/src/keystore.rs:1596-1643 | for a wallet that holds nothing: in every interleaving without its own import a key of it on disk has a record, iff nobody is part-way to putting a key of it there |
| WalletOverlaps.IndicesClimbAcross | rust-lib/src/keystore.rs:1646-1681 | in any interleaving in which nobody writes the wallet's record anew, a derivation that begins after another's last change returns a higher index |
| WalletOverlaps.TwoDerivationsCollide | rust-lib/src/keystore.rs:1646-1681 | two derivations that begin on the same books return one index and address, and the vault of the one that ends last stays, under its password |
| WalletIndices.CoveredMeansRemembered | rust-lib/src/keystore.rs:1426-1439 | where the record covers the recorded accounts, it is the authority |
| WalletIndices.EffectiveNextNeverDecreases | rust-lib/src/keystore.rs:1431-1439 | over calls that make all their changes, the effective next index never decreases |
| WalletIndices.LosingLowersExactly | rust-lib/src/keystore.rs:1431-1439 | losing an account's record lowers the effective next index iff it alone holds the top index and the group does not remember it |
| WalletIndices.EffectiveCanFall | rust-lib/src/keystore.rs:1572-1592 | a derivation stopped before its bump and an import of the same key take the index up by one and back down |
| WalletIndices.ImportsStartCovered | rust-lib/src/keystore.rs:1572-1592 | an import that succeeds leaves its wallet covered |
| WalletStore.Store.ImportMnemonicEx | rust-lib/src/keystore.rs:1596-1643 | whatever operations fail, the changes made are those of one import event, and all of them, with its answer, where no operation of the host fails |
| WalletStore.Store.WriteKey | rust-lib/src/keystore.rs:1478-1494 | the key's steps up to the first failure, then the stage guard |
| WalletStore.Store.Persist | rust-lib/src/keystore.rs:1572-1592 | vault, provenance, index, in this order and up to the first failure |
| WalletStore.Store.TurnBack | rust-lib/src/keystore.rs:1633-1642 | both key paths, then the name, then the record, none of it looked at |
| WalletStore.Store.WalkOn | rust-lib/src/keystore.rs:1659-1680 | the loop makes the changes of the walk, all of them if it answers |
| WalletStore.Store.DeriveNextAccount | rust-lib/src/keystore.rs:1646-1681 | the changes made are those of one event, and all of them, with its answer, where no operation of the host fails |
| WalletStore.Store.DeriveAccountAt | rust-lib/src/keystore.rs:1684-1711 | the changes made are those of one event, and all of them, with its answer, where no operation of the host fails |
| WalletStore.Store.ImportPlainKey | rust-lib/src/keystore.rs:285-304 | the changes made are those of one event: the key under the caller's password, then its record; all of them, with the plan's answer, where no operation of the host fails (what they come to is `WalletAnswers.ImportedKey`) |
| WalletStore.Store.Retire | rust-lib/src/keystore.rs:1936-1954 | the account's record goes and its index is retired, where it had one |
| WalletStore.Store.Delete | rust-lib/src/keystore.rs:541-553 | the changes made are those of one event: the vault first, and all of them, with its answer, where no operation of the host fails |
| WalletStore.Store.Forget | rust-lib/src/keystore.rs:1766-1801 | both key paths, then the record is tried, and the answer says whether it followed |
| WalletStore.Store.RemoveWallet | rust-lib/src/keystore.rs:1807-1843 | record then name, and only of a wallet that holds nothing |
| WalletStore.Store.NameWallet | rust-lib/src/keystore.rs:1249-1303 | the changes made are those of one event, after the custody the holdings ask for, and all of them, with its answer, where no operation of the host fails |

## Left out

- Scrypt, secp256k1, BIP-32, BIP-39, SHA-256, RLP and JSON parsing are arguments or absent; the commitment is reasoned about by its preimage, and a bundle reaches the model parsed.
- Numbers are plain decimal and `0x` hexadecimal text; the further spellings the 256-bit parser accepts are library behaviour. Case folding is any function that agrees with ASCII on ASCII.
- The bounds on a vault's KDF parameters are a property of its content (`kdfInRange`); their arithmetic is not computed.
- Error messages are not modelled, only the kind of refusal.
- `fsync` and power loss: a kill here is a process kill, and `rename` is atomic.
- File modes, but for what can be read, listed and written: a directory that lists can be searched, one that does not list is closed by its mode, and every directory is this process's own, so that naming one opens it.
- Directory listings are sets, so the scan's sorted vectors are one set of tagged filings, and the push and pop on the relative path is passing it by value.
- A scan and the call that follows it see one state: what links lead to and what opens does not change during a call, and what opening a dangling `.lock` creates elsewhere is not part of the tree.
- `settle` is modelled with its operations succeeding until it is killed; a `remove_dir_all` the host refuses part-way is not. An unlocked `write_vault` racing another process's `settle` is not either.
- The `trail` of the running store records the removal of a reported path as one step; inside `settle` each entry of a stage is its own step, and what is nested deeper goes with its entry. `Tree.Remnant` covers a kill at any depth.
- VaultStore.Keystore.RemoveUnexplained: no peer holds the lock; waiting on a peer only adds a refusal. A removal is refused for modes alone, not for a failing disk.
- Names that are not UTF-8, which the report text may merge.
- The mint counter is unbounded, where the source's is 64 bits. Where the source slices calldata by bytes the model counts characters, which agree on ASCII.
- Approval.Approvals.OpenRequest: the byte length of the submission and its parsed form are separate arguments, since the parser is not modelled.
- Folded.SigningAloneExactly: a bundle with a unit separator in an unread fee field is judged as a competitor, not for being alone itself; where its text is also a plain bundle's it is never alone (`Folded.NotPlainIsNotAlone`), and where it is not, nothing is said.
- `CaseFold.Folds` is asked of the case fold where legs are folded: a second time it changes nothing, it makes no white space, and it works apart on what is before and after a newline or a unit separator. `CaseFold.AsciiFolds` gives one.
- VaultStore.Keystore.WriteVault: an earlier leftover under the account's stage name is taken away whole where the directory can be written, and emptied whole where it cannot; a leftover the host refuses to empty part-way, or a link in its place in a closed directory, is not modelled.
- The `pending` summary: its sweep is a call of every run, its rows would only add easy members.
- Wallet vault writes are one change here, since their own steps are `Recovery`'s; that a settle inside `use_vault` may bring a staged vault to its path is left to `VaultStore`.
- Derivation of a child key is total, where the library may refuse a vanishingly rare index.
- The retired list of a record is a set, since nothing reads its order.
- `list_groups`, `provenance_view`, `preview_addresses`, `account_report` and per-account labels: views and one more sidecar under the same update.
- In `WalletRaces` a call reads what it needs before its first change.
- The module glue, the role gate, the acknowledgement type and the wasm branch of the lock.
