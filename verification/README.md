# Verified model of a hardware wallet's protocols

A Dafny model of the protocols and in-place algorithms of a hardware wallet firmware: the
streamed signing of transactions, the flash-backed PIN and U2F counters, the installation of
firmware by the bootloader, the canonical form of NEM mosaics, the Ethereum signing stream,
the CryptoMemory stream cipher, and the HID packet framing. `dafny verify dfyconfig.toml`
checks all of it.

Every component has the same two layers. A layer of values says what happens, as datatypes,
functions and lemmas: what was streamed, written, shown and signed, over every run. A class
holds the registers, buffers and flash words that the C code holds, is updated in place by
methods with the same branches, and each method's contract ties the new registers to a step
of the value layer. So what is proved about runs of values holds of the device.

- **Transaction streams** (`Bytes`, `Varint`, `Transaction`): the length prefixes, the chunks of
  the writing and of the hashing serializer, the whole-transaction printer they add up to, and
  the parser that inverts it.
- **Signing** (`Signing*`): `SigningModel.Step` is one message from the host, who may send
  anything; the machine keeps all inputs, outputs, credits, signatures and hashed bytes.
  `SigningDevice.Signer` keeps only running hashes, sums and indices. The theorems of
  `SigningTheorems` hold of every `Run`; they use a hash without collisions among the byte
  strings that the run itself compared, where that is said. `SigningConsent` says what the user
  has agreed to in every run, `SigningTermination` when sessions end, `SigningRequests` what the
  device asks for and sends, `SigningPreimages` what is signed and how it is presented, field by
  field, `SigningFees` the fee threshold, `SigningChange` exactly which outputs go by without
  confirmation, and `SigningFailures` exactly what ends a session. `SigningHonest` and `SigningHost` look from the other side: a host that knows
  nothing but the requests it receives, and has a payable order, gets it signed and serialized.
- **Storage** (`FlashMemory`, `PinStorage`, `PinRuns`, `StorageRuns`, `StorageDescriptor`, `StorageFields`,
  `StorageDevice`):
  flash words that programming can only clear, sector erases that a power cut can leave half done,
  and a cut after any word. An image with half of a list of operations done is a `Cut`. Runs of
  `StorageRuns` are made of right and wrong PINs, uses of the counter, saved settings, wipes and
  boots, cut or whole. `StorageDescriptor` follows the firmware descriptor that shares a sector with the
  settings. `StorageFields` is the settings structure byte by byte.
- **Installation** (`InstallModel`, `InstallDevice`): erase, place words 1 to n, restore the
  metadata whose first word is the magic.
- **Mosaics** (`NemMosaics`, `NemCanonicalize`): the recursive comparator and the in-place merge
  and exchange sort.
- **Ethereum** (`EthereumRlp`, `EthereumDevice`): lengths announced in one pass and bytes hashed in
  another, with the decoder of the Yellow Paper, Appendix B, and the fields of EIP-155.
- **Cipher** (`CryptoMemory`): three shift registers, encryption and decryption in place.
- **Framing** (`Messages`, `MessageDevice`, `U2fHid`, `U2fServer`, `U2fAnswers`, `U2fDevice`): output
  rings, reassembly buffers, the U2F session loop with its timeout, its commands and the button, and
  what it answers byte by byte.

Some statements of the source's comments or of common sense are false of the code; each is proved
with its exact condition.

- A signed Ethereum stream decodes if and only if the chain id fits one byte
  (`EthereumRlp.SignedBytesDecode`).
- The written and the hashed transaction agree if and only if no preblock hash is written in two
  byte orders (`Transaction.FastAndHashedAgree`).
- The U2F counter keeps its value across a recycle, for the counter's own sake or for a PIN's, if
  and only if the staged counter equals the stored one (`StorageDevice.Storage.AreaRecycle`).
- The offset of the U2F counter is the number of cleared bits after a boot if and only if the boot
  scan is compiled in or no bit is cleared, and nothing in the repository defines
  SUPPORT_LEGACY_VERSION for it; without the scan the counter survives a boot if and only if the
  offset was zero (`StorageRuns.BootKeepsCounter`).
- PIN failures survive every power cut if and only if no boot's own wipe is cut so that the refused
  storage is accepted again with other counters (`StorageRuns.FailuresAreKept`,
  `RevivedIsUnchanged`, `TwoCutsForget`).
- The firmware descriptor survives a power cut in any operation on storage if and only if the cut does
  not come from the erase of a commit on until its last word is back; a cut in the erase itself can
  leave anything (`StorageDescriptor.DescriptorBetween`, `CutLosesDescriptor`, `AnyDescriptorAfterTear`).
- A U2F message too long for the buffer is ignored frame by frame, whatever it says, if and only if
  it has at most 7609 bytes; behind that, sequence number 0x80 is read as a command
  (`U2fHid.TooLongIsRefused`, `NumberIsCommand`).
- A signing session is sure to end if and only if at most 2^32 - 1024 bytes of extra data are
  announced for each previous transaction, or the coin forces BIP-143 and none is asked for
  (`SigningTermination.SessionEnds`, `LongerAnnouncementIsEndless`).
- The reports of a message are copied within the input buffer if and only if at most 12277 bytes
  are announced, though up to 12288 are accepted (`Messages.MessageRoundTrip`, `OverrunIsReached`).
- Canonicalized mosaics keep every name with its sum if and only if no two namespaces clash over a
  mosaic name, and have a canonical order if and only if the comparator is an order on them
  (`NemCanonicalize.Canonicalize`, `NemMosaics.ConfusedExactly`, `NoClashIsOrderly`).

## Model

| member | source | states |
|---|---|---|
| Varint.RoundTrip | firmware/crypto.c:35-89 | a length prefix followed by any bytes decodes to the length and to exactly its own size |
| Varint.SerLength | firmware/crypto.c:35-53 | the buffer holds the prefix at the given place, every other byte is unchanged, and the returned size is the prefix's |
| Varint.DeserLength | firmware/crypto.c:73-89 | value and size are those of the decoder, for one-, three-, five- and nine-byte prefixes |
| Transaction.HashBodyInput | firmware/transaction.c:473-491 | one more hashed input extends the absorbed stream by its chunk, with the header in front of the first |
| Transaction.HashBodyOutput | firmware/transaction.c:542-564 | one more hashed output extends the absorbed stream by its chunk, with the count before the first and the lock time after the last |
| Transaction.WireStreamInput | firmware/transaction.c:449-471 | the same for the writing serializer's inputs |
| Transaction.WireStreamOutput | firmware/transaction.c:517-540 | the same for the writing serializer's outputs and its footer |
| Transaction.ParseHashStream | firmware/transaction.c:432-584 | the parser recovers version, preblock hash, inputs, outputs, lock time and extra data from the bytes hashed for a complete transaction |
| Transaction.HashStreamInjective | firmware/transaction.c:432-584 | two complete transactions with the same hashed bytes are equal in every part |
| Transaction.ParseWireStream | firmware/transaction.c:417-540 | the parser inverts the written transaction, whatever follows it |
| Transaction.MarkerIsVisible | firmware/transaction.c:417-430 | outside version 12 the fifth written byte is zero exactly for a segwit transaction |
| Transaction.FastAndHashedAgree | firmware/transaction.c:417-447 | without the marker the written bytes are the hashed bytes and 01 00 00 00 if and only if the version is not 12 or the preblock hash reads the same backwards |
| Transaction.TxStruct.Init | firmware/transaction.c:586-602 | counters are zero, nothing is absorbed, and the preblock hash is taken over for version 12 only |
| Transaction.TxStruct.SerializeHeaderHash | firmware/transaction.c:432-447 | absorbs the header with the preblock hash backwards |
| Transaction.TxStruct.SerializeInputHash | firmware/transaction.c:473-491 | accepted exactly while inputs are missing; absorbs the chunk of that input, otherwise changes nothing |
| Transaction.TxStruct.SerializeOutputHash | firmware/transaction.c:542-564 | accepted exactly when all inputs are in and outputs are missing; absorbs that output's chunk, otherwise changes nothing |
| Transaction.TxStruct.SerializeExtraDataHash | firmware/transaction.c:566-584 | absorbs the data unless inputs or outputs are missing or the 32-bit sum of received bytes passes the announced length |
| Transaction.TxStruct.SerializeHeader | firmware/transaction.c:417-430 | writes the header with the preblock hash as it came |
| Transaction.TxStruct.SerializeInput | firmware/transaction.c:449-471 | writes the chunk of the next input, or nothing when all inputs are out |
| Transaction.TxStruct.SerializeOutput | firmware/transaction.c:517-540 | writes the chunk of the next output, or nothing out of order or in excess |
| SigningRuns.StepKeepsShape | firmware/signing.c:798-1175 | every message keeps indices, list lengths, sums and the stage consistent |
| SigningRuns.ClaimedWithinTotal | firmware/signing.c:837-843 | what the host claimed is part of what is spent |
| SigningEffects.StepEffect | firmware/signing.c:798-1175 | one message adds at most one credit, one shown output, one charge and one serialized piece, each of a kind its stage allows |
| SigningLedger.PathOfAll | firmware/signing.c:347-378 | a usable account path is the account path of every input, and is unset exactly before the first input |
| SigningLedger.FpOfAll | firmware/signing.c:486-505 | a multisig fingerprint without mismatch is that of every input |
| SigningLedger.LedgerKept | firmware/signing.c:728-750 | charges stay covered by claims and keep signing the lists of Phase 1 |
| SigningLedger.CreditsKept | firmware/signing.c:518-529 | every credit stays matched with its own input and with its proof |
| SigningAgreement.CheckInjective | firmware/signing.c:509-515 | equally many inputs with the same checksum bytes agree one by one in outpoint and script type |
| SigningAgreement.OutputsInjective | firmware/transaction.c:402-408 | equally many outputs with the same bytes are the same outputs |
| SigningAgreement.StepKeepsProgress | firmware/signing.c:975-1058 | every message keeps the search for the next legacy input right: it points at the first legacy input not yet signed |
| SigningTheorems.RunInvariant | firmware/signing.c:798-1175 | the invariant over credits, shown outputs, ledger, signatures and serialized bytes holds in every run |
| SigningTheorems.LegacyAgreement | firmware/signing.c:709-725 | every legacy signature covers, position by position, the inputs and the compiled outputs of Phase 1, with one script filled in |
| SigningTheorems.LegacyBelowSorted | firmware/signing.c:845-850 | the list of legacy inputs holds exactly the legacy indices in increasing order |
| SigningTheorems.LegacySignedExactlyOnce | firmware/signing.c:984-1000 | without forced BIP-143, a run that reaches the outputs of Phase 2 has signed each legacy input of Phase 1 exactly once, in increasing order, and nothing else |
| SigningTheorems.PreviousTransactionSoundness | firmware/signing.c:518-529 | the amount counted for a proven input is that of output prev_index in any byte string that hashes to its previous hash |
| SigningTheorems.OneCreditPerInput | firmware/signing.c:816-892 | credits belong to inputs one by one; an amount is taken from the host only for segwit inputs or under forced BIP-143 |
| SigningTheorems.ValueConservation | firmware/signing.c:604-628 | once the fee check passed, inputs are confirmed outputs plus change plus a fee of at least zero, below 2^64, and the change is a single output's amount or zero |
| SigningTheorems.OnePositiveIsTheSum | firmware/signing.c:538-556 | with at most one positive unconfirmed output, the unconfirmed sum is zero or that amount |
| SigningConsent.UserAgreed | firmware/signing.c:531-628 | in every run past Phase 1 some message carried the confirmation of the total, and that of the fee if it was above the limit, and every output counted as confirmed was confirmed by the message that brought it |
| SigningConsent.SignedAfterConsent | firmware/signing.c:604-628 | a message that brings about a signature comes after all of that consent |
| SigningTheorems.ChangeBelongsToEveryInput | firmware/signing.c:380-395 | an output that was not confirmed lies in the account of every input, with the same fingerprint if multisig |
| SigningTheorems.AuthorizedAmount | firmware/signing.c:728-750 | the amounts signed by BIP-143 never exceed those claimed in Phase 1, and each signature covers the lists of Phase 1 |
| SigningTheorems.FinishedTransaction | firmware/signing.c:1133-1175 | a finished session has serialized one whole transaction that parses back to its inputs, outputs, witnesses and footer |
| SigningTheorems.WireKept | firmware/signing.c:787-792 | at every step the chunks sent to the host are the printed prefix of one transaction |
| SigningTermination.StepDescends | firmware/signing.c:798-1175 | every message brings a live session down a four-part rank, unless the 32-bit counter of extra data wraps |
| SigningTermination.DropPrevExtraData | firmware/transaction.c:566-584 | an accepted piece of extra data brings the rank down if and only if the counter does not wrap |
| SigningTermination.SessionEnds | firmware/signing.c:798-1175 | no endless host keeps a session alive if it announces at most 2^32 - 1024 bytes of extra data, or under forced BIP-143 |
| SigningTermination.EndlessSession | firmware/signing.c:956-967 | a session waiting for more extra data than that can be prolonged by any number of messages |
| SigningTermination.LongerAnnouncementIsEndless | firmware/signing.c:893-967 | without forced BIP-143, for every larger announcement there is a host that is still served after any number of messages, so the bound is exact |
| SigningRequests.StepAsks | firmware/signing.c:180-345 | whatever the host sends: a session that goes on has asked exactly for the part that it waits for, by index, or by transaction hash, index, offset and length |
| SigningRequests.StepSends | firmware/signing.c:787-1175 | whatever the host sends: the chunks of the replies are exactly the bytes serialized |
| SigningHost.AnswersWanted | firmware/signing.c:180-345 | what a host finds under the index, hash, offset and length of a request is the part of its order that the device waits for |
| SigningHost.OneMoreAnswer | firmware/signing.c:798-1175 | one answer to the last request, found by that request alone, keeps the session served or finishes it |
| SigningHost.HostIsServed | firmware/signing.c:180-345 | a host that knows only the requests it receives, whose inputs spend what their previous transactions pay, with known keys and scripts, sums that fit and a user who agrees, ends up with no failure and the request finished, and the chunks of the replies, one behind the other, parse to one transaction with its version and lock time, its inputs in order and exactly its outputs, compiled |
| SigningPreimages.SignedFields | firmware/signing.c:658-672 | in every run every BIP-143 charge is for a message of the host and its preimage parses, field by field and in this order, to the version, the digest of the outpoints and that of the sequence numbers of the inputs of Phase 1, the outpoint and script code of that message's input, its amount and sequence number, the digest of the outputs of Phase 1, the lock time and the hash type |
| SigningPreimages.LegacyFields | firmware/signing.c:709-726 | in every run in which the hash has not collided each legacy preimage parses to the outputs of Phase 1 and the inputs of its pass, with the script code in the signed input, empty scripts in all others, and the hash type behind the lock time |
| SigningPreimages.SignatureInReply | firmware/signing.c:674-781 | a signature in a reply has the index of the current input, is the one by the key of the path of the input just sent or passed of the hash of the preimage recorded with it, and is presented by the script or the witness serialized with it; replies in other stages carry none |
| SigningPreimages.FilledInputPresents | firmware/signing.c:674-706 | the script of a signed input pushes the signature with the hash type and the key, or the empty item, the signatures there are and the redeem script, with this signature in the slot of its key |
| SigningPreimages.WitnessPresents | firmware/signing.c:755-781 | the witness holds the same as counted items |
| SigningPreimages.SegwitInputScript | firmware/signing.c:1101-1131 | an input signed by its witness is serialized as sent, without script or with one push of the witness program |
| SigningPreimages.HashTypeSays | firmware/signing.c:630-638 | one without a fork id; else 0x41 and the fork id in the bytes above, in 32 bits |
| SigningFees.WeightAddsUp | firmware/signing.c:444-448 | in every run the weight is that of the frame, of the inputs and of the outputs so far, with the segwit overhead once, in 32 bits |
| SigningFees.Threshold | firmware/signing.c:604-614 | a fee is above the limit exactly when 4000 times it is more than weight times highest fee, in 64 bits |
| SigningFees.HighFeeIsAccepted | firmware/signing.c:604-628 | past the fee check with a fee above that limit some message carried the confirmation of the fee |
| SigningFees.LowFeeIsNotAsked | firmware/signing.c:604-628 | below it a user who agrees to the total is not asked about the fee |
| SigningChange.ShownExactlyOverRuns | firmware/signing.c:531-602 | in every run an output went by without confirmation if and only if it names a path that lies in the account of every input with chain and index in bounds, its multisig, if any, has the fingerprint of that of every input, it takes no more than the inputs claimed if it pays to a witness, and no earlier output of positive amount went by |
| SigningFailures.InputRefused | firmware/signing.c:816-892 | an input of Phase 1 is refused exactly if its script type is none of the four, if it is segwit and the coin is not, or if its amount counts as claimed and is missing or brings the sum to 2^64 |
| SigningFailures.MetaRefused | firmware/signing.c:893-913 | a previous transaction is refused at once exactly if it has no output of that index or its counts do not fit 32 bits |
| SigningFailures.LastOutputRefused | firmware/signing.c:929-955 | an output of it ends the session exactly if the sum reaches 2^64 or, as the last piece, the hash is not the one named |
| SigningFailures.ExtraDataRefused | firmware/signing.c:956-967 | a piece of extra data is refused exactly if it is empty or the 32-bit sum is above the announcement, or if it completes another hash |
| SigningFailures.OutputRefused | firmware/signing.c:531-628 | the exact conditions under which an output of Phase 1 is malformed, not compiled, refused by the user, not covered by the inputs, or refused with the fee or the total |
| SigningFailures.PassInputRefused | firmware/signing.c:975-1021 | an input of a pass ends the session exactly if it is the one to sign and has no script, or completes another checksum than that of Phase 1 |
| SigningFailures.PassOutputRefused | firmware/signing.c:1022-1058 | an output of a pass ends the session if it does not compile or completes another digest than that of Phase 1 |
| SigningFailures.LastOutputsRefused | firmware/signing.c:1133-1153 | an output of the end goes out exactly if it compiles |
| SigningFailures.NoScript | firmware/signing.c:397-432 | a script is compiled exactly for an input with the keys and the account of Phase 1, whose path derives, and whose script is known |
| SigningFailures.SegwitRefused | firmware/signing.c:728-750 | a signature by BIP-143 is refused without a script, above what is still authorized, or after signing without a slot for it |
| SigningFailures.EmptyWitness | firmware/signing.c:728-785 | exactly the segwit inputs get a signature in the witness pass, all others one zero byte |
| SigningFailures.SegwitInputRefused | firmware/signing.c:1059-1100 | in the BIP-143 pass a legacy input is refused unless the coin forces it, and then exactly with its signature |
| SigningFailures.FingerprintFails | firmware/signing.c:486-505 | an input whose fingerprint is needed and cannot be computed ends the session |
| SigningFailures.NotInSession | firmware/signing.c:798-806 | no message is taken outside a session, and nothing changes |
| SigningDevice.Signer.SigningInit | firmware/signing.c:434-481 | the registers are those of a fresh session and the first input is requested; a preblock hash shorter than 32 bytes is completed by the bytes of the last one |
| SigningDevice.Signer.Phase1RequestNextInput | firmware/signing.c:320-335 | the next input is asked for, or the three hashes become final and the first output is asked for |
| SigningDevice.Signer.Phase2RequestNextInput | firmware/signing.c:337-345 | goes on with a legacy pass exactly when the current input is the next legacy one |
| SigningDevice.Signer.ExtractInputBip32Path | firmware/signing.c:347-378 | the account path registers take in one more input's path |
| SigningDevice.Signer.CheckChangeBip32Path | firmware/signing.c:380-395 | true exactly for a path in the common account with chain and index in bounds |
| SigningDevice.Signer.CompileInputScriptSig | firmware/signing.c:397-432 | the script of an input, or None when its fingerprint or path does not fit the inputs of Phase 1 |
| SigningDevice.Signer.CheckInput | firmware/signing.c:485-516 | one input is taken into fingerprint, path and the three running hashes; a failing fingerprint ends the session |
| SigningDevice.Signer.CheckPrevtxHash | firmware/signing.c:518-529 | the session goes on exactly when the absorbed previous transaction hashes to the input's previous hash |
| SigningDevice.Signer.DetectChange | firmware/signing.c:538-556 | an output counts as change exactly by path, fingerprint, kind and amount, and only while no positive change was seen |
| SigningDevice.Signer.CheckOutput | firmware/signing.c:531-602 | the output is compiled, confirmed unless change, summed without wrap-around and hashed, or the session ends with the right failure |
| SigningDevice.Signer.CheckFee | firmware/signing.c:604-628 | refuses for lack of funds, then for a refused high fee, then for a refused total |
| SigningDevice.Signer.Phase1RequestNextOutput | firmware/signing.c:640-656 | asks for the next output, or checks the fee and starts Phase 2 |
| SigningDevice.Signer.HashBip143 | firmware/signing.c:658-672 | absorbs exactly the preimage whose fields SigningPreimages.SignedFields reads |
| SigningDevice.Signer.SignInput | firmware/signing.c:709-726 | compares outputs and inputs with Phase 1, signs the pass and serializes the signed input, as the model does |
| SigningDevice.Signer.SignSegwit | firmware/signing.c:728-750 | the amount is taken from the authorized amount exactly when a BIP-143 signature is made |
| SigningDevice.Signer.AckPrevMeta | firmware/signing.c:893-913 | on this message the registers follow the model's step |
| SigningDevice.Signer.AckPrevInput | firmware/signing.c:914-928 | the same for an input of the previous transaction |
| SigningDevice.Signer.AckPrevOutput | firmware/signing.c:929-955 | the same for an output of the previous transaction; the spent amount is added once, without wrap-around |
| SigningDevice.Signer.AckPrevExtraData | firmware/signing.c:956-967 | the same for extra data |
| SigningDevice.Signer.Ack1Input | firmware/signing.c:816-892 | the same for an input of Phase 1, also when a failing check has already ended the session |
| SigningDevice.Signer.Ack3Output | firmware/signing.c:968-974 | the same for an output of Phase 1 |
| SigningDevice.Signer.Ack4Input | firmware/signing.c:975-1021 | the same for an input of a signing pass |
| SigningDevice.Signer.Ack4Output | firmware/signing.c:1022-1058 | the same for an output of a signing pass |
| SigningDevice.Signer.AckSegwitInput | firmware/signing.c:1059-1132 | the same for an input of the BIP-143 pass |
| SigningDevice.Signer.Ack5Output | firmware/signing.c:1133-1153 | the same for an output to be serialized |
| SigningDevice.Signer.AckSegwitWitness | firmware/signing.c:1154-1175 | the same for a witness |
| SigningDevice.Signer.BuildWitness | firmware/signing.c:755-781 | the witness field with its count of items |
| SigningDevice.Signer.TxAck | firmware/signing.c:798-1175 | whatever the host sends, state and replies are those of the model's step, and the model state is the run of all messages so far |
| SigningDevice.Signer.LedgerBalances | firmware/signing.c:728-750 | at every reachable state the register of authorized amounts plus all charges is what Phase 1 claimed, and the other sums are those of the lists |
| FlashMemory.AndErased | firmware/storage.c:76-86 | programming an erased word stores it |
| FlashMemory.AndHigh | firmware/storage.c:78-81 | clearing low bits of a word with cleared low bits leaves the larger number of them cleared |
| FlashMemory.CutAppend | firmware/storage.c:312-427 | a power cut in two lists of operations falls into the first, or into the second after the whole first |
| PinStorage.ScanFindsWord | firmware/storage.c:1056-1062 | in a well-formed area the scan stops at the failure word, inside the area |
| PinStorage.WaitIsExponential | firmware/storage.c:1048-1053 | k failures make a wait of 2^k - 1 seconds, at least 2^15 exactly above fifteen failures |
| PinStorage.CommitStores | firmware/storage.c:312-427 | a complete commit stores the page and leaves the counter sector alone |
| PinStorage.CommitKeepsLast | firmware/storage.c:312-427 | a commit cut anywhere leaves the counter sector alone |
| PinStorage.RecycleCrashSafe | firmware/storage.c:976-999 | after any power cut while recycling, storage that is accepted has the old image or exactly the new failure word in a fresh area |
| PinStorage.RecycleAcceptedWhen | firmware/storage.c:976-999 | after k whole operations the storage is accepted if and only if k is zero and it was, or the new version word is written |
| PinStorage.WipeCrashSafe | firmware/storage.c:1130-1143 | while a wipe is cut, storage that is accepted still has its failures |
| PinRuns.Increased | firmware/storage.c:1020-1034 | one more failure clears one bit of one word and keeps the area well formed |
| PinRuns.IncreaseSaturates | firmware/storage.c:1020-1026 | past 31 failures the word counts no further and nothing is written |
| PinRuns.TryCut | firmware/protect.c:181-279 | an attempt cut anywhere leaves the old count, one more, or zero only for a right PIN |
| PinRuns.CountedFirst | firmware/protect.c:255-268 | right or wrong, the first write of an attempt is the failure word shifted left by one, and the area then counts one more |
| PinRuns.RightPinDone | firmware/protect.c:261-279 | a completed right PIN starts over at no failures |
| PinRuns.WrongPinDone | firmware/protect.c:221-279 | a completed wrong PIN counts, and wipes exactly when it is the sixteenth |
| PinRuns.CountClearsNextBit | firmware/storage.c:1106-1122 | one use of the counter clears exactly the next bit of the sector, in order |
| PinRuns.UsedBitStays | firmware/storage.c:1106-1114 | a use from an offset below the cleared bits leaves flash as it was |
| PinRuns.CountRecycles | firmware/storage.c:994-998 | a full counter area starts over with no cleared bits and the PIN failures kept |
| PinRuns.CountAdvances | firmware/storage.c:1106-1122 | from an offset at or below the cleared bits, a whole use leaves one bit more, as many as before, or none after the last bit |
| PinRuns.CountKeepsFailures | firmware/storage.c:1106-1122 | using the counter keeps the PIN failures, cut or not |
| PinRuns.CountKeepsCounter | firmware/storage.c:1106-1122 | such a use cut anywhere has cleared no bit, its bit, or started a new area |
| StorageRuns.EventCounts | firmware/protect.c:181-279 | every event, cut or whole, keeps the area zeros, one failure word and ones, as long as the device is up or the storage accepted; a completed wrong PIN adds one failure, a completed right PIN or wipe forgets all, a cut one does either or nothing, and nothing else changes the count |
| StorageRuns.FailuresAreKept | firmware/protect.c:181-279 | at the end of every run of events and boots in which no cut boot wipe revives refused storage, the area is well formed, and the failures lie between the completed wrong PINs since the last right one or wipe and all attempts since the last completed one |
| StorageRuns.WipedOnTheSixteenth | firmware/protect.c:154-158 | after any such run that leaves no doubt about the count, it is at most fifteen when a PIN may be tried, and the next wrong PIN wipes if and only if it is fifteen |
| StorageRuns.CountSinceSuccess | firmware/protect.c:181-279 | after a completed right PIN the count is that of the completed wrong PINs since, whatever came before |
| StorageRuns.SixteenthConsecutive | firmware/protect.c:154-279 | the wipe comes with exactly the sixteenth wrong PIN since the last completed right one |
| StorageRuns.RevivedIsUnchanged | firmware/storage.c:241-249 | storage revived by a cut boot wipe has the counters that it had when it was refused, good or bad |
| StorageRuns.TwoCutsForget | firmware/storage.c:976-999 | a cut in a recycling and a cut in the wipe of the next boot can lead from any count to accepted storage without failures |
| StorageRuns.EventKeepsCounter | firmware/storage.c:1106-1122 | every event, cut or whole, keeps the U2F area a run of cleared low bits that the offset does not pass; a whole use moves it on exactly by one, not at all below it, or to a new area |
| StorageRuns.CounterIsKept | firmware/storage.c:101-105 | at the end of every such run the U2F area is a run of cleared low bits; without the boot scan it never passes the area however long the run, with it only by one bit for every use cut by the power |
| StorageRuns.BootKeepsCounter | firmware/storage.c:137-223 | a boot keeps the counter if and only if the boot scan is compiled in or the offset was zero |
| StorageDescriptor.CommitPrefix | firmware/storage.c:401-411 | once the erase and some words of a commit are done, the descriptor is the old one if and only if the words still missing were erased before |
| StorageDescriptor.DescriptorBetween | firmware/storage.c:401-427 | between any two operations of any event on storage the descriptor is the old one, except exactly from the erase of its commit until the last word that was not erased before is back; 64 states if word 63 was written |
| StorageDescriptor.WholeEventKeepsDescriptor | firmware/storage.c:401-411 | every whole attempt, counter use, saved change, wipe and boot leaves words 0 to 63 as they were |
| StorageDescriptor.CutLosesDescriptor | firmware/storage.c:401-411 | a cut of any event changes the descriptor only in that window, and between two operations of the window always |
| StorageDescriptor.AnyDescriptorAfterTear | firmware/storage.c:405-407 | a cut while the commit erases can leave any descriptor |
| StorageDescriptor.DescriptorIsKept | firmware/storage.c:401-411 | at the end of every run in which no cut comes in such a window the descriptor is that of the beginning |
| StorageFields.FieldIsChosen | firmware/storage.c:312-399 | every field of the committed structure has the flag and the bytes that the rules choose from flash and from what is staged |
| StorageFields.TextsAfter | firmware/storage.c:356-376 | language, label and PIN read as staged, or as before; the empty label and PIN read as none |
| StorageFields.PictureAfter | firmware/storage.c:381-386 | the homescreen is the staged one, or as before; the empty one is none |
| StorageFields.SeedAfter | firmware/storage.c:324-351 | a commit keeps at most one seed, and the U2F root exactly with a mnemonic and derived from it; a new seed of either kind replaces the old one |
| StorageFields.SeedOverCommits | firmware/storage.c:324-351 | so after any number of commits |
| StorageFields.WipedHasNoSeed | firmware/storage.c:1130-1143 | and after a wipe to begin with |
| StorageFields.WordsRoundTrip | firmware/storage.c:278-284 | the structure written in words reads back byte by byte |
| StorageFields.Merge | firmware/storage.c:312-399 | merging field by field in place is the choice of all fields |
| StorageDevice.PageIsSettings | firmware/storage.c:312-427 | the committed page is accepted, the structure read back from it is the merged one, and so is the stored counter |
| StorageDevice.PageKeeps | firmware/storage.c:401-427 | a committed page has the descriptor of the flash before in words 0 to 63, the marker, the identifier in words 65 to 67, and zeros behind the structure |
| StorageDevice.Storage.CommitLocked | firmware/storage.c:312-427 | the operations on flash are the erase and the words of the merged page, in order; afterwards the sector holds that page, a staged PIN, passphrase setting or mnemonic has dropped what the session had cached, and the U2F area still goes with the offset; words 0 to 63 of flash, the firmware descriptor, are as before, words 65 to 67 the identifier, and the words behind the structure zero |
| StorageDevice.Storage.Update | firmware/storage.c:434-439 | a saved change is accepted and reads back as the merge of the staged fields; the counter is the staged one, if there is one, and otherwise the same; words 0 to 63 of flash stay as they are and 65 to 67 are the identifier |
| StorageDevice.Storage.AreaRecycle | firmware/storage.c:976-999 | marker, counters, failure word and commit in that order; the offset is zero, the U2F area erased, and the counter the same if and only if the staged counter equals the stored one; words 0 to 63 of flash stay as they are and 65 to 67 are the identifier |
| StorageDevice.Storage.GetPinFailsOffset | firmware/storage.c:1056-1062 | the loop stops at the failure word |
| StorageDevice.Storage.GetPinWait | firmware/storage.c:1048-1053 | the wait for a failure word |
| StorageDevice.Storage.IncreasePinFails | firmware/storage.c:1020-1034 | the area counts one failure more, up to 31, by one word; the saturated word is left and still answered with success |
| StorageDevice.Storage.ResetPinFails | firmware/storage.c:1001-1017 | no failures afterwards; with the last failure word the areas start over and the counter is the same if and only if the staged counter equals the stored one, otherwise it is untouched; words 0 to 63 of flash stay as they are, and so do 65 to 67 unless they are written with the identifier |
| StorageDevice.Storage.Wipe | firmware/storage.c:1130-1143 | the operations of a wipe, with staged fields and session dropped; no failures, no cleared bits, and nothing accepted at the next boot; words 0 to 63 of flash stay as they are, 65 to 67 are the new identifier, and all settings behind them are zero |
| StorageDevice.Storage.FromFlash | firmware/storage.c:137-158 | accepted exactly with the marker and the version |
| StorageDevice.Storage.StorageInit | firmware/storage.c:241-249 | storage that is not accepted is wiped at boot and then has well-formed counters; accepted storage is untouched, and the offset is zero, or the number of cleared bits where the scan is compiled in; words 0 to 63 of flash stay as they are and 65 to 67 are the identifier in use |
| StorageDevice.Storage.SetU2FCounter | firmware/storage.c:1124-1128 | stages the counter less the offset, modulo 2^32 |
| StorageDevice.Storage.NextU2FCounter | firmware/storage.c:1106-1122 | the flash operations of one use; the U2F area goes on with the offset and the PIN failures stay; the answer is the previous one plus one if and only if no recycle happened or the staged counter equals the stored one; words 0 to 63 of flash stay as they are, and so do 65 to 67 unless they are written with the identifier |
| StorageDevice.Storage.ScanU2f | firmware/storage.c:212-221 | the boot scan recovers the number of cleared bits, also behind a full area |
| StorageDevice.Storage.ProtectCheckMaxTry | firmware/protect.c:154-179 | wipes and stops exactly from 2^15 seconds on |
| StorageDevice.Storage.SleepOut | firmware/protect.c:221-253 | ends after the whole wait, or in the second in which the host aborts |
| StorageDevice.Storage.ProtectPin | firmware/protect.c:181-279 | waits 2^k - 1 seconds, or until the host aborts, and counts before comparing; afterwards the area is well formed with no failures when granted or wiped, k + 1 when refused, k when cancelled, the right PIN is remembered unless a new one was staged, and the U2F area still goes with the offset; words 0 to 63 of flash stay as they are, and after the wipe the identifier is the new one and no setting is left |
| InstallModel.EraseIsComplete | bootloader/usb.c:487-500 | the ten sector erases clear everything behind the bootloader |
| InstallModel.PlaceOne | bootloader/usb.c:574-613 | one more word lands at its place and the earlier ones stay |
| InstallModel.RestoreStores | bootloader/usb.c:308-316 | restoring over placed header words only clears bits, so the metadata is stored exactly and code is untouched |
| InstallModel.Installed | bootloader/usb.c:639-655 | at the end the metadata is the prepared one and every code word is the image's |
| InstallModel.NoMagicWhilePlacing | bootloader/usb.c:487-613 | a power cut while erasing or placing never leaves the magic over changed code |
| InstallModel.InstallIsSafe | bootloader/usb.c:468-664 | after a power cut anywhere the magic is there only over unchanged code, or over the complete image if it was to be confirmed |
| InstallDevice.LengthRoundTrip | util.c:47-63 | any number of 32 bits in the wire format of Protocol Buffers is read back, with exactly its bytes |
| InstallDevice.PreparedWords | bootloader/usb.c:632-653 | the prepared metadata word by word: the magic exactly when confirmed, the image's header, and the old storage or zeros |
| InstallDevice.Bootloader.FirmwareErase | bootloader/usb.c:468-526 | with consent everything is erased, and the old image and whether its signatures were good are remembered; without it nothing is |
| InstallDevice.Bootloader.WipeDevice | bootloader/usb.c:354-385 | with consent all of flash is erased, without it nothing is, and the session ends |
| InstallDevice.Bootloader.SelfTest | bootloader/usb.c:386-465 | the pattern stands in both metadata sectors where its hash is taken, and in the end flash is as it was |
| InstallDevice.Bootloader.BackupMetadata | bootloader/usb.c:303-306 | keeps the metadata words of flash |
| InstallDevice.Bootloader.FirmwareUpload | bootloader/usb.c:528-572 | a good first packet starts placing with exactly its bytes, any other ends the installation with flash unchanged |
| InstallDevice.Bootloader.FlashPacket | bootloader/usb.c:574-613 | the bytes of a packet are appended to the placed image; the check follows if and only if they complete a length that is a multiple of four |
| InstallDevice.Bootloader.ProgramWord | bootloader/usb.c:586-600 | a full word goes to the metadata header or to its code address, whatever the packet boundaries |
| InstallDevice.Bootloader.RestoreMetadata | bootloader/usb.c:308-316 | programs the kept words in order |
| InstallDevice.Bootloader.Finish | bootloader/usb.c:615-664 | word 0 is the magic if the hash was confirmed and else zero, words 1 to 63 and the code are the image's, and words 64 to 8191 are those from before the erase if and only if there was firmware, its signatures were good, the new header asks for it and the new signatures are good, else zero; a power cut anywhere in the installation, this end included, leaves the magic only over unchanged code, or over the complete image if it was confirmed |
| InstallDevice.Bootloader.RxCallback | bootloader/usb.c:318-666 | outside an installation flash changes only by a confirmed wipe; what flash was and whether it was signed is fixed by the packet that erases, and the image grows by the bytes of each packet until the end; the magic is absent from the erase to the end, where it appears only after consent or on a new device, over the complete image; the end leaves every word as said for Finish, so the storage of before is kept if and only if both firmwares are signed and the new one asks for it; after every packet of an installation the power cuts so far are as said there |
| InstallDevice.Bootloader.PowerCut | bootloader/bootloader.c:90-104 | in every reachable state before the end, every power cut so far leaves the magic only over unchanged code |
| NemMosaics.CompareIsKeyOrder | firmware/nem2.h:88-109 | unless one namespace is the other continued behind a colon, the comparator is the string order of the qualified names |
| NemMosaics.TotalOrder | firmware/nem2.h:88-109 | it is then a total order whose zero means the same name |
| NemMosaics.NoClashIsOrderly | firmware/nem2.h:88-109 | so it orders every list without such a clash |
| NemMosaics.ZeroExactly | firmware/nem2.h:88-109 | for any namespaces, zero means the same name or equal mosaics across a namespace that continues with a colon |
| NemMosaics.ColonsConfuse | firmware/nem2.h:98-101 | two different names that compare equal |
| NemMosaics.ConfusedExactly | firmware/nem2.h:88-109 | it confuses different names of a list if and only if two clashing namespaces have the same mosaic name |
| NemMosaics.ColonsCycle | firmware/nem2.h:98-101 | three names that it tells apart and compares in a circle |
| NemMosaics.SortedIsOrderly | firmware/nem2.c:799-814 | only a list whose names the comparator orders can be sorted at all |
| NemMosaics.CanonicalUnique | firmware/nem2.c:767-817 | a list has at most one canonical form |
| NemMosaics.CanonicalOfPermutation | firmware/nem2.c:767-817 | a canonical form is the same for every permutation of the list |
| NemMosaics.SumPermuted | firmware/nem2.c:787-796 | the sum per name modulo 2^64 does not depend on the order |
| NemCanonicalize.GatheredIsSum | firmware/nem2.c:787-796 | where names are told apart, what the inner loop adds up is the sum of the name modulo 2^64 |
| NemCanonicalize.MergeInto | firmware/nem2.c:787-796 | for any list, the inner loop adds the quantities of the unmarked later mosaics that compare equal, marks them, and changes nothing else |
| NemCanonicalize.MergeDuplicates | firmware/nem2.c:777-797 | for any list, no two merged mosaics compare equal; every name is there once with its sum if and only if the comparator tells the names apart |
| NemCanonicalize.SortPrefix | firmware/nem2.c:799-814 | the exchanges permute the prefix, and leave it sorted if and only if its names are distinct and the comparator orders them |
| NemCanonicalize.Canonicalize | firmware/nem2.c:767-817 | for any list, the returned prefix keeps the names and sums if and only if the comparator tells the names apart, and is the canonical form if and only if the comparator orders them |
| EthereumRlp.CalculatedIsWritten | firmware/ethereum.c:145-158 | the length computed for a field is the number of bytes hashed for it |
| EthereumRlp.FieldDecodes | firmware/ethereum.c:113-117 | a hashed field decodes to its bytes, whatever follows |
| EthereumRlp.FieldsDecode | firmware/ethereum.c:113-117 | a payload of fields decodes to exactly these fields |
| EthereumRlp.ListDecodes | firmware/ethereum.c:86-108 | a list decodes to its fields if the announced length is right and not at all otherwise |
| EthereumRlp.AnnouncedIsWritten | firmware/ethereum.c:526-542 | the announced length is below 2^24 and is the length hashed if and only if the chain id is at most 255 |
| EthereumRlp.SignedBytesDecode | firmware/ethereum.c:526-562 | the signed bytes decode to exactly the six or nine fields if and only if the chain id is at most 255, and to nothing otherwise |
| EthereumRlp.SignedBytesInjective | firmware/ethereum.c:526-562 | different transactions with such chain ids are signed as different bytes |
| EthereumRlp.PayloadDecodes | firmware/ethereum.c:544-562 | whatever the chain id, the fields decode behind the one to four bytes of the list's header |
| EthereumRlp.NumberBytesValue | firmware/ethereum.c:123-138 | the bytes of a number have its value, and the first is not zero |
| EthereumRlp.SignatureVFits | firmware/ethereum.c:203-208 | the recovery value is that of EIP-155 except at the largest chain id with an odd recovery bit |
| EthereumDevice.ChunksDoNotMatter | firmware/ethereum.c:566-595 | however the data is cut, only the last chunk is answered by the signature, and it covers the same bytes |
| EthereumDevice.OnlyCompleteIsSigned | firmware/ethereum.c:566-595 | whatever the host sends, a signature is over the header with exactly the announced amount of data, as sent |
| EthereumDevice.AsksForTheRest | firmware/ethereum.c:160-170 | whenever more data is asked for, it is all that is missing, or 1024 bytes of it |
| EthereumDevice.SignsTheMessage | firmware/ethereum.c:544-595 | every signature in any session is over bytes that decode, in this order, to the message's nonce, gas price, gas limit, recipient and value, the first chunk with all later ones behind it, exactly as long as announced, and with a chain id that id and two empty fields; the recovery value is 27 or 28, or with a chain id twice it and 35 or 36, in 32 bits |
| EthereumDevice.NotRefusedExactly | firmware/ethereum.c:429-523 | the message is refused as malformed, refused by the user, answered by a request for data or by the signature exactly under the stated conditions on its fields and on the answers |
| EthereumDevice.SignedIsConfirmedAndComplete | firmware/ethereum.c:429-595 | every signature belongs to an acceptable, confirmed message, and its transaction has exactly the announced amount of data |
| EthereumDevice.Signer.HashRlpLength | firmware/ethereum.c:57-81 | hashes the header of a string of that length and first byte |
| EthereumDevice.Signer.HashRlpListLength | firmware/ethereum.c:86-108 | hashes the header of a list of that length |
| EthereumDevice.Signer.HashRlpField | firmware/ethereum.c:113-117 | hashes header and bytes of a field |
| EthereumDevice.Signer.HashRlpNumber | firmware/ethereum.c:123-138 | hashes the big-endian bytes without leading zeros, and nothing at all for zero |
| EthereumDevice.Signer.SendSignature | firmware/ethereum.c:177-221 | what is signed is the preimage of the whole transaction; the session ends and the key is wiped |
| EthereumDevice.Signer.Check | firmware/ethereum.c:446-523 | refuses a malformed message before any dialog, and goes on only after all dialogs that apply |
| EthereumDevice.Signer.SigningInit | firmware/ethereum.c:429-564 | reply and session are those of the model, of which EthereumDevice.SignsTheMessage says what is signed; outside a session the key is zero |
| EthereumDevice.Signer.TxAck | firmware/ethereum.c:566-595 | the same for one chunk: refused when too long or empty, else hashed and answered by a request or the signature |
| CryptoMemory.SumModulo31 | at88sc0104.c:947-959 | the register sum is the sum modulo 31 with zero kept apart from 31, and the only such value |
| CryptoMemory.SumModulo127 | at88sc0104.c:947-965 | the same modulo 127 |
| CryptoMemory.RotationDoubles31 | at88sc0104.c:948-950 | the five-bit rotation is doubling modulo 31 |
| CryptoMemory.RotationDoubles127 | at88sc0104.c:949-965 | the seven-bit rotation is doubling modulo 127 |
| CryptoMemory.OutputSelects | at88sc0104.c:976-979 | the low bits of S[0] select each new output bit, the former low nibble moves up |
| CryptoMemory.InputBits | at88sc0104.c:952-955 | R takes in the five low bits, T the five high bits, S bits 3 to 0 in front of bits 7 to 5 |
| CryptoMemory.ClockTakesIn | at88sc0104.c:952-974 | those bits are what changes in R[3], S[5] and T[2] against the registers before them |
| CryptoMemory.ClockShifts | at88sc0104.c:957-974 | all other registers move up by one |
| CryptoMemory.Polynomials | at88sc0104.c:957-974 | the new first registers are R[3] + 2 R[6] and T[4] + T[2] modulo 31 and S[5] + 2 S[6] modulo 127, with zero kept apart |
| CryptoMemory.ClockOutput | at88sc0104.c:976-979 | each new output bit is one of R[0] ^ R[4] or of T[0] ^ T[3], as S[0] says |
| CryptoMemory.EncipheredByte | at88sc0104.c:1078-1089 | each byte is the plain one exclusive-or the output five idle clocks after the byte before; without encryption it stays |
| CryptoMemory.Clock | at88sc0104.c:937-981 | a clock keeps the registers within five, seven and five bits |
| CryptoMemory.DecryptInvertsEncrypt | at88sc0104.c:1065-1089 | decrypting from five idle clocks ahead inverts encryption, and the final states are five idle clocks apart again |
| CryptoMemory.EncryptInvertsDecrypt | at88sc0104.c:1065-1089 | the other way round, for every buffer |
| CryptoMemory.Cipher.constructor | at88sc0104.c:930-934 | all registers are zero |
| CryptoMemory.Cipher.GPAGen | at88sc0104.c:937-981 | the arrays shift in place by exactly one clock |
| CryptoMemory.Cipher.GPAGenN | at88sc0104.c:1048-1053 | the byte counter makes that many clocks, and 256 for zero |
| CryptoMemory.Cipher.Encrypt | at88sc0104.c:1078-1089 | the buffer is enciphered in place, the rest unchanged, the registers as after that plain text |
| CryptoMemory.Cipher.Decrypt | at88sc0104.c:1065-1075 | the buffer is deciphered in place, the rest unchanged |
| Messages.PushedFits | firmware/messages.c:85-97 | nothing pending is lost if and only if pending and new reports are fewer than 192 |
| Messages.MessageFits | firmware/messages.c:165-216 | a message fits an empty ring if and only if it encodes to at most 12025 bytes |
| Messages.AppendedReports | firmware/messages.c:85-97 | appending byte by byte fills reports of 63 bytes each |
| Messages.PaddedReports | firmware/messages.c:117-126 | appending and padding a stream queues its reports |
| Messages.WireByte | firmware/messages.c:85-216 | every report begins with 0x3F, and byte j of the message is byte 8 + j of what follows these marks, filled up with zeros |
| Messages.FirstBytes | firmware/messages.c:193-200 | behind the first mark stand two hashes, the id and the length, the most significant byte first |
| Messages.PrefixIsRead | firmware/messages.c:236-283 | before the last report nothing is delivered and the reader holds the prefix sent so far |
| Messages.MessageRoundTrip | firmware/messages.c:165-283 | the reports of a message of an accepted size are read back as the same id, size and payload, with the last report, if and only if it has at most 12277 bytes |
| Messages.OverrunIsReached | firmware/messages.c:236-277 | with more bytes the first 195 reports lead to a copy from byte 12277 to 12340 of a buffer of 12288 |
| Messages.NeverOverrun | firmware/messages.c:236-277 | whatever reports follow, no copy passes the end while at most 12277 bytes are announced |
| Messages.SentIsReceived | firmware/messages.c:165-283 | what an empty ring sends of a message is read back as that message if and only if it has at most 12025 bytes |
| MessageDevice.OutputRing.Append | firmware/messages.c:85-97 | one byte is added to the report being filled; pending reports stay |
| MessageDevice.OutputRing.Pad | firmware/messages.c:117-126 | an open report is completed with zeros |
| MessageDevice.OutputRing.Write | firmware/messages.c:165-216 | an unknown type or a failing encoder leaves everything unchanged; otherwise the reports of the framed message are queued in order |
| MessageDevice.OutputRing.Data | firmware/messages.c:285-292 | the oldest pending report is handed out |
| MessageDevice.InputBuffer.Read | firmware/messages.c:236-283 | one report moves the reassembly buffer as the model does, and a copy that would pass its end is reported as such |
| U2fHid.QueuedFrames | firmware/u2f.c:312-322 | frames that fit the ring are queued in order, the rest are dropped |
| U2fHid.FramesRoundTrip | firmware/u2f.c:113-168 | all frames of a message are read back as the message, and no proper part of them is complete |
| U2fHid.TooLongIsRefused | firmware/u2f.c:170-185 | a message too long for the buffer gets one error frame and all its other frames are ignored, whatever they say, if and only if it has at most 7609 bytes |
| U2fHid.NumberIsCommand | firmware/u2f.c:170-189 | of a longer message the frame with sequence number 0x80 is taken for a command of the length in its first two bytes |
| U2fHid.SentIsReceived | firmware/u2f.c:364-401 | sent through an empty ring a message arrives if and only if it has at most 7491 bytes |
| U2fServer.SignedWithPresence | firmware/u2f.c:532-759 | whatever the host sends, every registration and authentication is signed directly after the button was pressed, once, for the dialog of exactly that request |
| U2fServer.Silence | firmware/u2f.c:191-211 | without frames a session that collects ends with the timeout error after exactly as many polls as its counter says |
| U2fServer.MessageIsTaken | firmware/u2f.c:170-235 | a message whose frames come in time is carried out exactly once and as it was sent |
| U2fAnswers.MessageAnswers | firmware/u2f.c:334-362 | every message by its bytes: only instruction 1 with 64 bytes, and instruction 2 with P1 3 and a known key handle of 64 bytes, go on to the user; every other one has its fixed status word or version |
| U2fAnswers.PresenceAnswers | firmware/u2f.c:551-646 | a new request or one not yet confirmed is shown or waited for with 0x6985, a confirmed one is signed, or answered with 0x6a80 if that fails |
| U2fAnswers.CommandAnswers | firmware/u2f.c:213-279 | a ping comes back as it is, WINK is acknowledged, an unknown command is error 1 |
| U2fAnswers.InitAnswers | firmware/u2f.c:281-310 | INIT is answered on its channel with its nonce, the channel in little endian, version 2, the firmware's version and the flag for WINK |
| U2fAnswers.FrameAnswers | firmware/u2f.c:113-189 | any other frame is answered with the error of its case, 11, 3, 6 or 4, or not at all |
| U2fDevice.Channel.QueuePacket | firmware/u2f.c:312-322 | queued unless 127 frames are pending |
| U2fDevice.Channel.OutData | firmware/u2f.c:324-332 | the oldest pending frame is handed out |
| U2fDevice.Channel.SendMessage | firmware/u2f.c:364-401 | the initial and all continuation frames are queued in order |
| U2fDevice.Channel.SendError | firmware/u2f.c:403-413 | one error frame to the given channel |
| U2fDevice.Channel.InitCommand | firmware/u2f.c:160-168 | the reader starts over with the frame's command, length and first 57 bytes |
| U2fDevice.Channel.Init | firmware/u2f.c:281-310 | answers an INIT, allocating a channel for a broadcast |
| U2fDevice.Channel.ReadStart | firmware/u2f.c:170-189 | refuses bad channels and lengths, else opens the reader |
| U2fDevice.Channel.Read | firmware/u2f.c:113-158 | one frame moves channel, reader and ring as the model does |
| U2fDevice.Channel.Present | firmware/u2f.c:551-646 | shows the dialog, asks again, or signs after the button, as the model does |
| U2fDevice.Channel.Message | firmware/u2f.c:334-362 | one APDU moves request state, timeout and ring as the model does |
| U2fDevice.Channel.Dispatch | firmware/u2f.c:213-232 | a complete command is carried out and recorded, and the reader waits for another |
| U2fDevice.Channel.AwaitFrame | firmware/u2f.c:193-211 | the inner wait ends with a frame, with the timeout, or with the polls, as the model does |
| U2fDevice.Channel.OfferAll | firmware/u2f.c:230-252 | the wait for the button or another command, and the end of the session |
| U2fDevice.Channel.Session | firmware/u2f.c:190-254 | the whole loop follows the model poll by poll |
| U2fDevice.Channel.Receive | firmware/u2f.c:113-254 | a frame outside a session and all polls of the session it begins follow the model, and keep that signatures need the button |

## Left out

- Hash functions, ECDSA, BIP-32 derivation, address and redeem script compilation, input and output weights: functions of an environment (`SigningModel.Env`, `EthereumDevice.Crypto`).
- Collision-freeness of the hash: assumed in the statements that need it, for the byte strings of the run only.
- Message type numbers and encodings of `types.proto` and nanopb: messages are datatypes within the decoder's size limits.
- Dialogs, progress display, buttons and timers: a confirmation is a boolean that comes with the message.
- Compilation of OP_RETURN outputs and the contents of confirmation dialogs: part of the environment.
- `Initialize` and `Cancel` in the middle of a session: a session is left by its failures or its end, or started anew.
- Previous storage versions, the debug link, and the `CRYPTOMEM` build of storage: not part of this model.
- The setters that stage a field, and reading seeds and nodes: any structure may be staged; deriving the U2F root from a mnemonic is a function of the environment.
- Read-backs of flash that fail for physical reasons: programming and erasing do what they say unless power is cut.
- The signature check of the bootloader, a function of what is in flash, and the USB, RNG and CPU parts of its self test, a boolean; the erase check is the erase itself.
- NEM validation, formatting and multisig aggregation: easy checks and display.
- Ethereum token tables and amounts: the lookup is a boolean that comes with the message.
- U2F keys, key handles and attestation: what a registration or an authentication answers is a function of the environment, which also has its counter.
- U2fServer.SignedWithPresence: says that the dialog of the request was shown before the button was pressed, not that it was still on the display; a message that times out brings back the home screen without resetting the request.
- The authentication handshake of the CryptoMemory chip: it depends on the chip's own behaviour.
- SigningTheorems.LegacyAgreement: says nothing about input sequence numbers, which are not part of the Phase 1 checksum.
- SigningTheorems.FinishedTransaction: the outputs serialized at the end are those sent at the end; the code does not compare them with Phase 1 again.
- StorageDevice.Storage.ScanU2f: the scan is compiled only in builds that support previous storage versions; the constant `scans` says whether it is.
- MessageDevice.InputBuffer.Read: a copy that would end behind the buffer is reported and not made, because C gives no meaning to it; what the device does afterwards is not modelled.
- MessageDevice.OutputRing.Write: an encoder that succeeds when only counting and fails when writing is not modelled.
- EthereumDevice.Signer.TxAck: chunks are within the 1024 bytes the decoder allows.
