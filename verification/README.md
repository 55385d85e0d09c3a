# Verified model of the fluffycoin curator and its codecs

Fluffycoin is a block chain. Its curator reads serialized blocks, in whatever
order they come, and integrates them into a database. This project models that
path from the file name to the table row, with the codecs on it and two small
machines beside it, and proves what the code promises about them.

* **Integration.** `DbIntegration` is one attempt to integrate one block: the
  checks, the statements of the session, the commit and the cached cursor.
  `BlockIntegration` collects blocks in nested maps and offers them lowest first.
  Both are classes; each method is proved against a function on values
  (`DbIntegration.Integrated`, `Integration.AddBlock`). `Chain`, `Integration` and
  `OrderIndependence` prove what holds over whole runs: one hash-linked chain, a
  cache that agrees with the tables, no block lost, and a final state that does
  not depend on the order of arrival. `Verdicts` says which answer every block
  gets, by the chain so far, and that blocks that wait for others are not lost.
* **Serialization.** `Der` is the part of ITU-T X.690 the templates use. `BlockDer`
  has the templates of genesis and reconciliation blocks, `WireLayout` their bytes
  written out, `BlockAsn1` the structures in between, `BlockObjects` and `Stacks`
  the objects and the loops that fill them. Blocks survive the wire and the copy,
  exactly when their 64-bit integers do.
* **Text.** `Base58`, `Base64`, `Address`, `BlockFilename` and `Amount` have loops
  proved against definitions on numbers, and those definitions proved to be
  inverse to each other.
* **End to end.** `Curator` puts the program's codec into the machine;
  `LoadFromFs` loads a directory. `Strays` and `BlockDirectory` say when the chain
  in a directory is integrated to its end however the directory is listed.
  `TamperEvidence` says that the last hash determines the chain, unless two of the
  blocks in question collide.
* **Latch and lockout.** `UncontrolledSocket` is a wakeup latch, proved to be an
  auto-reset event. `BruteForce` counts offences and locks addresses out.

Where time, chance and other systems come in, they are parameters. A delivery
brings a function that says which database requests fail in each attempt it sets
off. The clock is handed to every call. The digest functions and the random
generator are function values about which nothing is assumed but their range.
Column ranges and primary keys are those of `doc/schema.sql`: reconciliation
numbers are stored as INT, so at most 2^31 links can be stored, and a genesis
block needs at least one coin.

Three things one might expect of the code are false of it. Each is stated with an
input and with the exact condition:

* *Blocks survive the wire and the copy.* An integer of 2^63 or more is read back
  as 2^64 - 1, because it is fetched as a signed number (`HalfRangeChanges`). A
  block is kept exactly when its two 64-bit integers are below 2^63 or equal to
  2^64 - 1 (`CopyIsIdentity`, `WireKeepsFields`).
* *The order of listing a directory does not matter.* It does not while only
  blocks of the chain are in it. A stray block, such as a node block that waits
  for others, is turned away as stale once its reconciliation is done, and that
  ends the round; if nothing arrives later, blocks that could be integrated stay
  (`NodeBlockStalls` has two listings of one directory that end differently). The
  database is the same for all listings exactly when no stray has a number
  between that of the first and that of the last block (`LoadsChainExactly`);
  which strays still wait may differ even then. A sorted listing always integrates
  the whole chain (`SortedLoadsChain`).
* *Offences expire and lockouts end.* The first cleanup is due when the clock
  starts, and a cleanup that is overdue is skipped, so none ever happens
  (`NeverForgiven`). An address is refused exactly when it ever made three
  offences (`RefusedExactly`).

Code and documentation disagree in places, and the code is followed: the null
choice of a block has the universal tag, not a context tag; addresses have 26
bytes, not 32; a Specie has no optional part; the time in the content of a
reconciliation is never set and stays zero. TRUE is written as FF, as section
11.1 of ITU-T X.690 asks; the source puts 1 into the field that is encoded. Only
the byte differs: neither the order of the votes nor what is read back depends
on it.

## Model

| member | source | states |
|---|---|---|
| `Base58.CharToVal` | src/alg/Base58.cpp:10-28 | every character reads as a value below 58, invalid ones included |
| `Base58.TableEntry` | src/alg/Base58.cpp:33-46 | the alphabet has 58 characters and position v holds the character of v |
| `Base58.ValCharVal` | src/alg/Base58.cpp:10-46 | reading inverts writing for all 58 values |
| `Base58.CharValChar` | src/alg/Base58.cpp:10-46 | writing inverts reading for all characters of the alphabet |
| `Base58.OutsideAlphabet` | src/alg/Base58.cpp:10-28 | a character has its place in the table, and any character outside the table reads as zero |
| `Base58.DecodeEncode` | src/alg/Base58.cpp:48-125 | decoding the text of any byte string, leading zeros included, gives the bytes back; the text is over the alphabet |
| `Base58.EncodeDecode` | src/alg/Base58.cpp:48-125 | encoding the bytes of any text over the alphabet gives the text back, so encoding is a bijection |
| `Base58.EncodedValue` | src/alg/Base58.cpp:48-94 | the text is, by the positions in the table, the same number in base 58 as the bytes in base 256, and has as many leading ones as there are leading zero bytes |
| `Base58.DigitBound` | src/alg/Base58.cpp:58-60 | a number below 256^n has at most floor(138n/100)+1 digits in base 58, for every n |
| `Base58.EncodedFits` | src/alg/Base58.cpp:58-78 | the digit loop stays inside the allocated buffer, with room for the terminator |
| `Base58.DecodedLength` | src/alg/Base58.cpp:98-119 | m characters never decode to more than m bytes, leading zeros included |
| `Base58.CountLeading` | src/alg/Base58.cpp:53-56 | the loop counts exactly the leading run of one element |
| `Base58.Encode` | src/alg/Base58.cpp:48-94 | the division loop over the buffer computes the text of the number after one '1' per leading zero byte |
| `Base58.Prepend` | src/alg/Base58.cpp:80-84 | the digits are turned round behind the leading ones |
| `Base58.ReadNumber` | src/alg/Base58.cpp:103-111 | the multiply-and-add loop computes the number the text denotes |
| `Base58.Decode` | src/alg/Base58.cpp:96-125 | the method computes the decoding the bijection is about, inside its buffer |
| `Base58.WriteBytes` | src/alg/Base58.cpp:114-119 | the minimal big-endian bytes are written behind the leading zeros, which stay |
| `Base64.CharToVal` | src/utils/Base64.cpp:14-30 | the result is a six-bit value or -1 |
| `Base64.TableEntry` | src/utils/Base64.cpp:35-48 | the alphabet has 64 characters and position v holds the character of v |
| `Base64.ValCharVal` | src/utils/Base64.cpp:14-48 | reading inverts writing for all 64 values |
| `Base64.CharValChar` | src/utils/Base64.cpp:14-48 | writing inverts reading on the alphabet that is written |
| `Base64.CharsRead` | src/utils/Base64.cpp:14-30 | read are the table, plus for minus, slash and comma for underscore, and nothing else |
| `Base64.GroupOfThree` | src/utils/Base64.cpp:57-93 | three bytes in front of any others give the four six-bit groups of their 24 bits, as section 4 of RFC 4648 says |
| `Base64.LastGroups` | src/utils/Base64.cpp:95-100 | one or two bytes at the end give two or three groups, the last filled with zero bits |
| `Base64.EncodeConcat` | src/utils/Base64.cpp:50-103 | encoding is done group by group: whole groups in front do not affect the rest |
| `Base64.EncodedChars` | src/utils/Base64.cpp:50-103 | n bytes give exactly ceil(4n/3) characters, all of the URL alphabet and no padding |
| `Base64.DecodeEncode` | src/utils/Base64.cpp:50-168 | decoding the text of any byte string gives it back |
| `Base64.EncodeDecode` | src/utils/Base64.cpp:50-168 | a text over the written alphabet, of any length, is the encoding of what it decodes to if and only if its length is not 1 mod 4 and its last character has no bits that get dropped |
| `Base64.JunkIgnored` | src/utils/Base64.cpp:121-126 | characters without a value can be left out anywhere without changing the result |
| `Base64.DecodeConcat` | src/utils/Base64.cpp:105-168 | decoding is done group by group, counting only characters with a value |
| `Base64.EncodeByte` | src/utils/Base64.cpp:59-92 | one round of the bit-packing machine keeps its state in step with the bytes read |
| `Base64.Encode` | src/utils/Base64.cpp:50-103 | the streaming encoder computes the regrouping of the whole bit string |
| `Base64.CountEquals` | src/utils/Base64.cpp:114-116 | dropping the counted padding drops no value |
| `Base64.DecodeValue` | src/utils/Base64.cpp:128-161 | one round of the unpacking machine keeps its state in step with the values read |
| `Base64.StoreValue` | src/utils/Base64.cpp:128-161 | one value is taken in, and the byte it completes is written inside the buffer |
| `Base64.DecodeInto` | src/utils/Base64.cpp:118-162 | the loop writes the decoding and never past the buffer |
| `Base64.Decode` | src/utils/Base64.cpp:105-168 | the method computes the decoding of the values in the text |
| `Address.UnprintablePrintable` | src/alg/Address.cpp:119-137 | the text of a byte string of any length leads back to it |
| `Address.PrintableInjective` | src/alg/Address.cpp:119-137 | equal texts are texts of equal addresses |
| `Address.PrintableUnprintable` | src/alg/Address.cpp:119-137 | a text returns from the bytes it is read as if and only if it is canonical: URL characters in front, Base58 characters behind, nothing left over or dropped |
| `Address.OneCanonicalText` | src/alg/Address.cpp:114-137 | of all texts that are read, and so accepted, as one address, exactly one is canonical, the one that is printed |
| `Address.OtherTexts` | src/alg/Address.cpp:129-137 | other texts are read as the same address: a leading plus does for a leading minus |
| `Address.Personalised` | src/alg/Address.cpp:39-99 | for every key, salt and random choice the address has 26 bytes and prints with the first min(8, length) characters of the salt, if and only if those are of the URL alphabet |
| `Address.VerifiesExactly` | src/alg/Address.cpp:101-112 | a byte string is accepted for a key if and only if it is some six-byte salt followed by 20 bytes of SHA-2 over the salt and SHA-3 over salt and key |
| `Address.KeyBound` | src/alg/Address.cpp:76-98 | an address accepted for two keys exhibits a collision of the inner digest, or of the first 20 bytes of the outer one, under its salt |
| `Address.GeneratedVerifies` | src/alg/Address.cpp:101-117 | a generated address is accepted for its key, as bytes and as text |
| `Address.Generate` | src/alg/Address.cpp:39-54 | the method with its filling loop computes the address of the filled salt |
| `Address.GenerateFromBytes` | src/alg/Address.cpp:56-99 | 26 bytes: the salt, cut off or filled up to six bytes, and 20 bytes of SHA-2 over the salt and SHA-3 over salt and key |
| `BlockFilename.ParseGet` | src/alg/BlockFilename.cpp:9-79 | the name of a triple is accepted if and only if its numbers are below 10^8, 10^4 and 10^4, and is then read as the triple |
| `BlockFilename.GetParse` | src/alg/BlockFilename.cpp:9-79 | every accepted name is the name of the triple read from it |
| `BlockFilename.NameLayout` | src/alg/BlockFilename.cpp:9-15 | a name in range is three digit fields with the three numbers, two dashes and the extension |
| `BlockFilename.NameOrder` | src/alg/BlockFilename.cpp:9-15 | names in dictionary order are triples in numeric order, both ways |
| `BlockFilename.From8IsNumber` | src/alg/BlockFilename.cpp:20-32 | the weighted sum of eight digits is the number they denote |
| `BlockFilename.From4IsNumber` | src/alg/BlockFilename.cpp:34-42 | the weighted sum of four digits is the number they denote |
| `BlockFilename.TripleOf` | src/alg/BlockFilename.cpp:74-78 | what an accepted name gives is always in range |
| `BlockFilename.Parse` | src/alg/BlockFilename.cpp:46-79 | the character loop accepts exactly the names, and reads their fields |
| `Amount.Denotes` | src/block/Specie.cpp:73-90 | the printed amount denotes coins + fluffs/10^8 if and only if fluffs < 10^8 |
| `Amount.Shape` | src/block/Specie.cpp:81-87 | all integer digits stay, the fraction does not end in zero, and no point dangles |
| `Amount.Injective` | src/block/Specie.cpp:73-90 | different amounts are printed differently |
| `Amount.PrintedFits` | src/block/Specie.cpp:75-79 | no amount is too long for the buffer of 64 characters |
| `Amount.Trim` | src/block/Specie.cpp:81-87 | the loop trims the buffer in place to the trimmed text |
| `Amount.ToString` | src/block/Specie.cpp:73-90 | the method computes the text the theorems are about |
| `Der.IntegerRoundTrip` | src/ossl/convert.cpp:50-53 | the octets of every integer, by X.690 section 8.3, lead back to it |
| `Der.LengthRoundTrip` | src/ossl/encode.h:16-32 | short and long form lengths, by X.690 sections 8.1.3 and 10.1, are read back with the rest untouched |
| `Der.ParseEncode` | src/ossl/encode.h:16-32 | every tree of the subset is parsed back from its encoding, whatever follows it |
| `Stacks.ToStack` | src/ossl/convert.h:65-76 | whatever the stack held, it ends with the converted elements in order |
| `Stacks.FromStack` | src/ossl/convert.h:78-90 | the list ends with the converted elements of the stack in order |
| `BlockAsn1.CopyIsIdentity` | src/block/Block.cpp:75-85 | a copied block equals the block if and only if its 64-bit integers survive the signed fetch |
| `BlockAsn1.HalfRangeChanges` | src/ossl/convert.cpp:55-72 | a genesis block with 2^63 coins is copied with 2^64 - 1 |
| `BlockAsn1.DecodedCopiesExactly` | src/block/Block.cpp:189-215 | a block that came out of the intermediate form is copied exactly from then on |
| `BlockDer.SortVotesSorts` | src/block/Reconciliation.cpp:60-65 | set-of order, by X.690 section 11.6: a permutation of the votes in order of their encodings |
| `BlockDer.GenesisRoundTrip` | src/block/Genesis.cpp:27-38 | the genesis template read back gives all nine fields |
| `BlockDer.ContentRoundTrip` | src/block/Reconciliation.cpp:41-48 | the content template read back gives all five fields |
| `BlockDer.ReconciliationRoundTrip` | src/block/Reconciliation.cpp:60-65 | the reconciliation template read back gives all fields, votes in set order |
| `BlockDer.WireRoundTrip` | src/block/Block.cpp:217-224 | decoding an encoded block gives the copied block with votes in set order |
| `BlockDer.WireKeepsFields` | src/block/Block.cpp:137-224 | the wire keeps every field, votes up to order, if and only if the 64-bit integers survive |
| `BlockDer.HashSurvives` | src/block/Reconciliation.cpp:162-169 | neither wire nor copy changes the bytes that are hashed, or the bytes that are sent |
| `WireLayout.LengthForms` | src/ossl/encode.h:16-32 | the length octets, byte by byte, for all lengths that four octets hold |
| `WireLayout.IntegerForm` | src/ossl/convert.cpp:50-53 | integers are two's complement with the first nine bits not all equal |
| `WireLayout.BlockBytes` | src/block/Block.cpp:24-30 | every block is sent as identifier, length and contents of its fields in order, with the identifiers A1, A2, A3, 05, 02, 0C, 04, 30, 31 and 01 as literals |
| `WireLayout.HashedBytes` | src/block/Reconciliation.cpp:41-48 | genesis blocks and contents are hashed as laid out, with a time of zero |
| `WireLayout.HashStored` | src/block/Hash.cpp:22-25 | a hash is stored as two octet strings in a sequence, SHA-2 first; 70 bytes for 256-bit digests |
| `WireLayout.HashOfBlock` | src/block/Hash.cpp:36-40 | each digest of the hashed bytes is in its own field |
| `WireLayout.SetOrder` | src/block/Reconciliation.cpp:60-65 | the votes are sent in ascending order of their octets, by the first octet that differs, and none is lost |
| `BlockObjects.GenesisObject.constructor` | src/block/Genesis.cpp:49-53 | a new genesis has all fields empty or zero |
| `BlockObjects.GenesisObject.ToAsn1` | src/block/Genesis.cpp:145-156 | every field is written, whatever the structure held |
| `BlockObjects.GenesisObject.FromAsn1` | src/block/Genesis.cpp:158-169 | every field is overwritten with the converted one |
| `BlockObjects.GenesisObject.Encode` | src/block/Genesis.cpp:171-178 | gives the laid out bytes that are hashed for a genesis block |
| `BlockObjects.ReconciliationObject.constructor` | src/block/Reconciliation.cpp:76-80 | a new reconciliation is empty |
| `BlockObjects.ReconciliationObject.ToAsn1` | src/block/Reconciliation.cpp:142-150 | every field but the time is written, and the time keeps its value |
| `BlockObjects.ReconciliationObject.FromAsn1` | src/block/Reconciliation.cpp:152-160 | every field is overwritten with the converted one |
| `BlockObjects.ReconciliationObject.ToContent` | src/block/Reconciliation.cpp:162-169 | gives the laid out bytes that are hashed: content without signature and votes, with time zero |
| `BlockObjects.BlockObject.constructor` | src/block/Block.cpp:41-44 | a new block has no part |
| `BlockObjects.BlockObject.ResetChoice` | src/block/Block.cpp:87-94 | any block becomes one without parts |
| `BlockObjects.BlockObject.SetGenesis` | src/block/Block.cpp:106-111 | the value is moved into a new part of the block, type and part agree, and no other part is left |
| `BlockObjects.BlockObject.SetReconciliation` | src/block/Block.cpp:118-123 | the value is moved into a new part of the block, type and part agree, and no other part is left |
| `BlockObjects.BlockObject.SetNode` | src/block/Block.cpp:130-135 | the value is moved into a new part of the block, type and part agree, and no other part is left |
| `BlockObjects.BlockObject.ToAsn1` | src/block/Block.cpp:137-187 | the structure is set to the converted block, whatever it held |
| `BlockObjects.BlockObject.FromAsn1` | src/block/Block.cpp:189-215 | the block gets a new part converted from the structure, and type and part agree |
| `BlockObjects.BlockObject.Assign` | src/block/Block.cpp:75-85 | the copy shares no part with the original, which stays as it is; assigning a block to itself changes nothing |
| `BlockObjects.BlockObject.MoveFrom` | src/block/Block.cpp:58-73 | the part changes hands and the other block is left without one |
| `BlockObjects.BlockObject.Encode` | src/block/Block.cpp:217-224 | gives the laid out bytes, which the round trip is about |
| `BlockObjects.BlockObject.Decode` | src/block/decode.cpp:17-26 | true exactly for data that starts with a block; otherwise the block is left alone |
| `DbIntegration.Integrated` | src/services/curator/core/DbIntegrator.cpp:77-209 | any result but Success leaves committed tables and cursor unchanged |
| `DbIntegration.FirstScanDecides` | src/services/curator/core/DbIntegrator.cpp:150-193 | the first entry that differs from what is imported decides: early if it asks for more blocks, bad otherwise |
| `DbIntegration.SecondScanDecides` | src/services/curator/core/DbIntegrator.cpp:317-348 | the first entry that does not match decides: no match, early or bad |
| `DbIntegration.GenesisAllOrNothing` | src/services/curator/core/DbIntegrator.cpp:225-281 | the four inserts go through if and only if nothing fails, the amounts fit and all keys are free; then every table has one row more and all it had |
| `DbIntegration.ReconciliationReplacesRow` | src/services/curator/core/DbIntegrator.cpp:353-380 | the import table ends with one row, its own, and no other table changes, or nothing is stored |
| `DbIntegration.DbIntegrator.constructor` | src/services/curator/core/DbIntegrator.cpp:12-18 | starts uninitialized on empty tables |
| `DbIntegration.DbIntegrator.Init` | src/services/curator/core/DbIntegrator.cpp:20-40 | on an empty table only the flag is set, and not even that when the query fails |
| `DbIntegration.DbIntegrator.Integrate` | src/services/curator/core/DbIntegrator.cpp:77-209 | the checks in their order give exactly the specified result, tables and cursor |
| `DbIntegration.DbIntegrator.ScanShards` | src/services/curator/core/DbIntegrator.cpp:150-193 | no objection if and only if all entries equal what is imported; otherwise the first that differs decides between NotReady and BadBlock |
| `DbIntegration.DbIntegrator.IntegrateGenesis` | src/services/curator/core/DbIntegrator.cpp:211-290 | four inserts and a commit, or nothing at all; then the cursor is 1 |
| `DbIntegration.DbIntegrator.IntegrateRecon` | src/services/curator/core/DbIntegrator.cpp:292-393 | the second scan and the replaced import row, or nothing at all; then the cursor is one further |
| `DbIntegration.DbIntegrator.IntegrateNode` | src/services/curator/core/DbIntegrator.cpp:395-438 | a node block is judged by its number and changes nothing |
| `Chain.GreedConserved` | src/services/curator/core/DbIntegrator.cpp:240-246 | the unsigned subtraction fits the column exactly for 1 to 2^63 coins, and then spendable and staked coins add up |
| `Chain.FirstScanPasses` | src/services/curator/core/DbIntegrator.cpp:150-193 | the first scan passes exactly when no entry is objected to |
| `Chain.SecondScanAfterFirst` | src/services/curator/core/DbIntegrator.cpp:317-348 | after the first scan, the second can only miss a shard, and does exactly when one is missing |
| `Chain.SecondScanIsFailsafe` | src/services/curator/core/DbIntegrator.cpp:307-348 | with shards numbered without gaps, what passes the first scan and the count passes the second |
| `Chain.ScansPass` | src/services/curator/core/DbIntegrator.cpp:150-193 | scans and count let through exactly one entry with the last hash and count 0 |
| `Chain.GenesisAttempt` | src/services/curator/core/DbIntegrator.cpp:211-290 | success gives cache and tables of the one-block chain; undisturbed failure means the greed does not fit |
| `Chain.ReconciliationAttempt` | src/services/curator/core/DbIntegrator.cpp:292-393 | success means the block follows the last one, and gives cache and tables of the longer chain |
| `Chain.Attempt` | src/services/curator/core/DbIntegrator.cpp:77-209 | a link is integrated only as the next of the chain, and undisturbed always then; every other attempt changes neither cache nor tables |
| `Chain.FittingNotRejected` | src/services/curator/core/DbIntegrator.cpp:101-198 | a block that fits is never rejected: if it fails, the database failed |
| `Integration.Least` | src/services/curator/core/BlockIntegrator.cpp:93-134 | the least waiting block in the order of reconciliation, shard, block |
| `Integration.TryNext` | src/services/curator/core/BlockIntegrator.cpp:84-155 | another round is asked for only when a block left the map |
| `Verdicts.AttemptVerdict` | src/services/curator/core/DbIntegrator.cpp:77-438 | the answer to every block, key and fault, by the chain so far: which of the ten result codes, and when |
| `Verdicts.EarlyNotFinal` | src/services/curator/core/DbIntegrator.cpp:160-168 | a reconciliation whose first fault is a shard that lacks blocks is put off, whatever fails |
| `Verdicts.OfferAnswered` | src/services/curator/core/BlockIntegrator.cpp:137-152 | the offered block leaves after Success, InvalidIndex, BadBlock or AlreadyDone and stays after NotReady, NoDatabase or DatabaseError; no other block is touched |
| `Verdicts.RunAnswered` | src/services/curator/core/BlockIntegrator.cpp:65-80 | in every run each answer is one of these seven |
| `Verdicts.NeverLost` | src/services/curator/core/BlockIntegrator.cpp:137-183 | a reconciliation that waits for blocks of its shards still waits after any deliveries and failures, unless another block took its number |
| `Integration.RunSafe` | src/services/curator/core/BlockIntegrator.cpp:15-155 | whatever is delivered and whatever fails: the integrated links form one chain numbered from 0, cache and tables are those of it, and every accepted block waits or was finished, exactly once |
| `Integration.LinksIncrease` | src/services/curator/core/DbIntegrator.cpp:101-117 | later links have higher numbers, so no number succeeds twice |
| `Integration.RunChain` | src/services/curator/core/DbIntegrator.cpp:265-289 | in every reachable state the cursor is the length of the chain, one import row holds the cached hash, and spendable and staked coins add up to the greed |
| `Integration.FailsafeInEveryRun` | src/services/curator/core/DbIntegrator.cpp:307-348 | in every reachable state the shards have no gaps and the second scan objects to nothing the first let through |
| `Integration.AttemptsBounded` | src/services/curator/core/BlockIntegrator.cpp:55-60 | the retry loop stops after at most as many attempts as blocks wait, and makes none only if none waits |
| `OrderIndependence.RunStage` | src/services/curator/core/BlockIntegrator.cpp:15-60 | with any failures, blocks of one chain are never lost: a prefix is integrated and the rest of what arrived waits |
| `OrderIndependence.OrderIndependent` | src/services/curator/core/BlockIntegrator.cpp:15-60 | undisturbed, the cursor is the least number not delivered (or 2^31) and exactly the later arrivals wait |
| `OrderIndependence.Confluent` | src/services/curator/core/BlockIntegrator.cpp:15-155 | two runs that deliver the same blocks, in any order and with repeats, end in the same state |
| `OrderIndependence.AllArrived` | src/services/curator/core/BlockIntegrator.cpp:15-155 | once all blocks have arrived, all are integrated and none waits |
| `OrderIndependence.RepeatIgnored` | src/services/curator/core/BlockIntegrator.cpp:137-155 | a repeat of an integrated block leaves waiting blocks and cursor as they were |
| `OrderIndependence.RepeatDropped` | src/services/curator/core/BlockIntegrator.cpp:137-155 | a repeat left waiting by a failure takes up one delivery, and no more |
| `OrderIndependence.Recovers` | src/services/curator/core/BlockIntegrator.cpp:137-155 | after any failures, one undisturbed delivery of a new block, and one more for every repeat left waiting, bring the state to what the arrivals determine |
| `BlockIntegration.NestedLeast` | src/services/curator/core/BlockIntegrator.cpp:93-134 | least reconciliation, its least shard and its least block are the least key of the flat map |
| `BlockIntegration.BothEmpty` | src/services/curator/core/BlockIntegrator.cpp:93-108 | nested and flat map are empty together, so the branch for an empty list is never taken |
| `BlockIntegration.RepresentsWith` | src/services/curator/core/BlockIntegrator.cpp:28-44 | placing a block in the nested maps adds it to the flat map, unless its place is taken |
| `BlockIntegration.RepresentsWithout` | src/services/curator/core/BlockIntegrator.cpp:157-183 | taking a block out of the nested maps takes exactly it out of the flat map |
| `BlockIntegration.WithNoEmpties` | src/services/curator/core/BlockIntegrator.cpp:28-44 | placing leaves no empty list |
| `BlockIntegration.WithoutNoEmpties` | src/services/curator/core/BlockIntegrator.cpp:178-182 | the cleanup leaves no empty list |
| `BlockIntegration.Erase` | src/services/curator/core/BlockIntegrator.cpp:157-183 | a block that waits is taken out; one that does not wait changes nothing |
| `BlockIntegration.Emplace` | src/services/curator/core/BlockIntegrator.cpp:30-44 | the block is placed in lists found or made on the way, unless its place is taken |
| `BlockIntegration.FindLeast` | src/services/curator/core/BlockIntegrator.cpp:92-134 | the walk from the cursor on ends at least reconciliation, least shard and least block |
| `BlockIntegration.BlockIntegrator.constructor` | src/services/curator/core/BlockIntegrator.cpp:8-13 | nothing waits and the cursor is zero |
| `BlockIntegration.BlockIntegrator.AddBlock` | src/services/curator/core/BlockIntegrator.cpp:15-53 | the new state is the specified one; invalid data changes nothing; the shard cursor stays zero |
| `BlockIntegration.BlockIntegrator.Place` | src/services/curator/core/BlockIntegrator.cpp:28-48 | the block is accepted unless its place is taken |
| `BlockIntegration.BlockIntegrator.RemoveBlock` | src/services/curator/core/BlockIntegrator.cpp:157-183 | exactly the block leaves and no empty list is left |
| `BlockIntegration.BlockIntegrator.FindNext` | src/services/curator/core/BlockIntegrator.cpp:90-135 | the walk over the shards finds the least waiting block, and none only when none waits |
| `BlockIntegration.BlockIntegrator.TryNext` | src/services/curator/core/BlockIntegrator.cpp:84-155 | one round does what the machine's round does |
| `BlockIntegration.BlockIntegrator.Offer` | src/services/curator/core/BlockIntegrator.cpp:122-146 | a copy is handed to the database integrator and the waiting blocks stay |
| `BlockIntegration.BlockIntegrator.Finish` | src/services/curator/core/BlockIntegrator.cpp:148-151 | success and bad blocks leave the maps, others stay |
| `BlockIntegration.BlockIntegrator.TryIntegrate` | src/services/curator/core/BlockIntegrator.cpp:55-60 | the retry loop terminates in the state of the machine |
| `Curator.ReadBlock` | src/services/curator/core/BlockIntegrator.cpp:21-26 | decoding into a block object gives what the codec of the machine gives |
| `Curator.CopyBlock` | src/services/curator/core/BlockIntegrator.cpp:122-125 | assigning one block object to another gives what the codec of the machine gives |
| `Curator.HashLink` | src/services/curator/core/DbIntegrator.cpp:265-267 | encoding a genesis or reconciliation object and hashing it gives the hash of the machine's codec, each digest of the laid out bytes in its field |
| `Curator.ReceivedBlock` | src/block/decode.cpp:17-26 | a serialized block, with anything behind it, is read as the block with votes in set order |
| `Curator.ReceivedChain` | src/services/curator/core/DbIntegrator.cpp:364-366 | the wire keeps a chain a chain: all hash links still match |
| `Curator.WireOrderIndependent` | src/services/curator/core/BlockIntegrator.cpp:15-60 | for serialized chains, the set of numbers that arrived determines the state |
| `Curator.WireAllArrived` | src/services/curator/core/DbIntegrator.cpp:362-372 | once all serialized blocks arrived, nothing waits and all four tables are those of the chain as sent, the import row with the two digests of the laid out last block |
| `Curator.WireLink` | src/ossl/convert.cpp:31-48 | a reconciliation off the wire continues a chain if and only if the number sent, of any width, is the next, the hash is right and the block count is zero, negative or too wide |
| `Curator.WireGreed` | src/ossl/convert.cpp:55-72 | a genesis block off the wire can start a chain if and only if the coins sent are at least 1 and below 2^63 and the fluffs fit 31 bits or do not fit 32 |
| `LoadFromFs.FileRead` | src/services/curator/events/LoadFromFs.cpp:22-43 | the file read is the file listed, and only readable files with accepted names are handed over |
| `LoadFromFs.LoadFile` | src/services/curator/events/LoadFromFs.cpp:17-49 | exactly the specified delivery is made, and none below the start number |
| `LoadFromFs.Init` | src/services/curator/events/LoadFromFs.cpp:53-73 | the loop delivers the listed files one after the other |
| `Strays.RunAmid` | src/services/curator/core/BlockIntegrator.cpp:15-155 | whatever strays there are and whatever fails, only blocks of the chain get into it, in order |
| `Strays.HarmlessComplete` | src/services/curator/core/BlockIntegrator.cpp:137-155 | with strays of number 0, of the last number or later only, the whole chain is integrated in every order of arrival |
| `Strays.StallsBehind` | src/services/curator/core/BlockIntegrator.cpp:148-154 | a stray of another number, when the first block of the chain comes last, stops the integration at the block after it |
| `BlockDirectory.LoadsChain` | src/services/curator/events/LoadFromFs.cpp:53-73 | a directory with a serialized chain and no other blocks, listed in any order: everything is integrated, nothing waits, and all four tables are those of the chain as sent |
| `BlockDirectory.LoadsChainExactly` | src/services/curator/events/LoadFromFs.cpp:53-73 | for a directory with a serialized chain among strays, the database is the same for any two listings, and has the whole chain for every listing, each if and only if no stray has a number between that of the first and that of the last block |
| `BlockDirectory.LoadsExactly` | src/services/curator/events/LoadFromFs.cpp:53-73 | the same for every way of reading, copying and hashing blocks |
| `BlockDirectory.LoadsAmongHarmless` | src/services/curator/events/LoadFromFs.cpp:53-73 | with harmless strays the chain is integrated for every listing, with repeats and names that cannot be read too |
| `BlockDirectory.FirstLastStalls` | src/services/curator/core/BlockIntegrator.cpp:148-154 | such a stray and the listing with the first block at the end leave the chain incomplete |
| `BlockDirectory.TwoListingsDiffer` | src/utils/FileTools.cpp:153-184 | such a stray and two listings of the directory, one of which integrates the whole chain and the other does not |
| `BlockDirectory.NodeBlockStalls` | src/services/curator/core/DbIntegrator.cpp:418-425 | a node block that waits as block 5 of reconciliation 1 is such a stray: one listing completes the chain, another stops at 2 |
| `BlockDirectory.InOrderCompletes` | src/services/curator/core/BlockIntegrator.cpp:137-155 | whatever strays there are, a listing in which the chain comes in order, each block before what belongs after it, integrates all of it |
| `BlockDirectory.SortedLoadsChain` | src/services/curator/events/LoadFromFs.cpp:59-70 | listed in dictionary order, a serialized chain is integrated to the end whatever strays there are |
| `TamperEvidence.GenesisDetermined` | src/block/Genesis.cpp:171-178 | equal hashed bytes are those of equal genesis blocks |
| `TamperEvidence.ContentDetermined` | src/block/Reconciliation.cpp:162-169 | equal hashed bytes are those of reconciliations equal up to signature and votes |
| `TamperEvidence.KindsDiffer` | src/services/curator/core/DbIntegrator.cpp:265-268 | no genesis block and no reconciliation have the same hashed bytes |
| `TamperEvidence.LastHashDetermines` | src/services/curator/core/DbIntegrator.cpp:317-348 | the hash of the last block determines the whole chain, its length included, up to signatures and votes, unless some block of the one chain and some block of the other are hashed differently and still have the same digests |
| `TamperEvidence.SameHashSameChain` | src/services/curator/core/DbIntegrator.cpp:382-390 | two curators that cached the same hash, after any deliveries and failures, integrated the same chain, unless two of the blocks they integrated collide |
| `UncontrolledSocket.Socket.constructor` | src/async/UncontrolledSocket.cpp:20-26 | starts wanting to be read, with no wait pending |
| `UncontrolledSocket.Socket.QueueRead` | src/async/UncontrolledSocket.cpp:47-54 | one more wait is pending, and marked |
| `UncontrolledSocket.Socket.Read` | src/async/UncontrolledSocket.cpp:127-174 | the four cases give the specified flags and callback to run |
| `UncontrolledSocket.Socket.Complete` | src/async/UncontrolledSocket.cpp:56-82 | a completed wait is renewed while the socket is good, and the stored callback is handed out |
| `UncontrolledSocket.Socket.Fail` | src/async/Socket.cpp:207-216 | a wait that ends in an error is used up without its handler being called, and stays marked |
| `UncontrolledSocket.RunConserves` | src/async/UncontrolledSocket.cpp:47-174 | every read is released exactly once or still waits, whatever fails |
| `UncontrolledSocket.AtMostOnce` | src/async/UncontrolledSocket.cpp:67-75 | each callback runs at most once |
| `UncontrolledSocket.Refines` | src/async/UncontrolledSocket.cpp:47-174 | in every interleaving a healthy socket is an auto-reset event that starts signalled |
| `UncontrolledSocket.AlwaysArmed` | src/async/UncontrolledSocket.cpp:63-65 | from the first read on exactly one wait is pending |
| `UncontrolledSocket.ArmedUnlessFailed` | src/async/Socket.cpp:199-221 | once a pending wait has failed, the socket stays marked as queued with no wait pending |
| `UncontrolledSocket.StoredRunsNext` | src/async/UncontrolledSocket.cpp:67-75 | a stored callback runs at the next readiness if and only if no wait has failed |
| `UncontrolledSocket.StoredForEver` | src/async/Socket.cpp:207-216 | after a failed wait a stored callback is never run |
| `UncontrolledSocket.ClosedReadRuns` | src/async/UncontrolledSocket.cpp:163-169 | a read on a closed socket runs its own callback at once and disturbs no stored one |
| `UncontrolledSocket.NotRenewed` | src/async/UncontrolledSocket.cpp:63-82 | a wait that completes with an error or after closing hands out the stored callback and is not renewed |
| `UncontrolledSocket.NoReadinessLost` | src/async/UncontrolledSocket.cpp:67-82 | a readiness releases the waiting callback or, if none waits, the next read at once |
| `UncontrolledSocket.OverlapLoses` | src/async/UncontrolledSocket.cpp:171-173 | a read loses a callback if and only if one is still stored |
| `BruteForce.BruteForce.constructor` | src/services/p2p/auth/BruteForce.h:43-46 | starts with empty maps and the cleanup time at the start of the clock |
| `BruteForce.BruteForce.CheckAddress` | src/services/p2p/auth/BruteForce.cpp:15-23 | cleans up, then accepts exactly the addresses that are not blocked |
| `BruteForce.BruteForce.AddOffense` | src/services/p2p/auth/BruteForce.cpp:25-55 | counts up, and at the third offence blocks for the lockout period (see `RefusedExactly` and `LockoutExactly` for the numbers) |
| `BruteForce.BruteForce.Cleanup` | src/services/p2p/auth/BruteForce.cpp:57-86 | before its time is past, it sets the next time and erases what expired; after that it does nothing |
| `BruteForce.BruteForce.Forgive` | src/services/p2p/auth/BruteForce.cpp:66-75 | exactly the blocked addresses whose time is over are erased |
| `BruteForce.BruteForce.ResetPending` | src/services/p2p/auth/BruteForce.cpp:77-85 | exactly the pending offences that are too old are erased |
| `BruteForce.RunSound` | src/services/p2p/auth/BruteForce.cpp:25-86 | in every run the maps are disjoint, pending counts are 1 or 2, and a blocked address has at least three offences |
| `BruteForce.RefusedOffended` | src/services/p2p/auth/BruteForce.cpp:15-23 | a refused address has at least three offences |
| `BruteForce.LockedOut` | src/services/p2p/auth/BruteForce.cpp:47-75 | from the blocking offence on an address is refused for 60 seconds, in nanosecond ticks, whatever happens meanwhile |
| `BruteForce.LockoutExactly` | src/services/p2p/auth/BruteForce.cpp:66-75 | while the maps are still cleaned, refused for 60 seconds from the blocking offence and no longer |
| `BruteForce.NextCheckForgives` | src/services/p2p/auth/BruteForce.cpp:62-75 | after a check that cleaned up, an address is let in if and only if the next check comes within 20 seconds and after its lockout |
| `BruteForce.PendingForgotten` | src/services/p2p/auth/BruteForce.cpp:77-85 | while the maps are still cleaned, a pending offence is forgotten if and only if it is older than 60 seconds |
| `BruteForce.ThreeOffensesBlock` | src/services/p2p/auth/BruteForce.cpp:35-54 | three offences within the lockout period get an address refused, whatever happens in between |
| `BruteForce.RunNeverCleans` | src/services/p2p/auth/BruteForce.cpp:62-67 | on a clock that has started, no run ever cleans up: the maps hold all offences ever made |
| `BruteForce.RefusedExactly` | src/services/p2p/auth/BruteForce.cpp:15-86 | in every run on such a clock, an address is refused if and only if it ever made three offences |
| `BruteForce.NeverForgiven` | src/services/p2p/auth/BruteForce.cpp:62-67 | three offences a thousand days apart get an address refused for ever |

## Left out

- BlockDer.WireRoundTrip: blocks of 2^31 bytes or more are excluded, since the source keeps lengths in an int; node blocks are excluded too.
- BlockDer.WireKeepsFields: the same blocks are excluded.
- BlockDer.HashSurvives: the same blocks are excluded.
- BlockObjects.BlockObject.Decode: refuses forms that the decoder of the source may also accept (indefinite lengths, padded integers and lengths); only what the templates produce is read.
- DbIntegration.DbIntegrator.Init: only on an empty table; reading the cursor back from a table that has rows is not modelled.
- DbIntegration.DbIntegrator.IntegrateNode: the source is a stub that stores nothing, and so is the model.
- UncontrolledSocket.Refines: for a socket that stays open and whose waits succeed; a failing wait is the subject of `StoredRunsNext`, and on a closed socket only the conservation of callbacks is shown.
- BlockDirectory.LoadsChainExactly: for chains of at most 10^8 blocks, since no longer one has file names that are read back, and for directories without a rival, that is a block that continues the chain and has another hash than the chain's own block; a copy of a block under another name is no rival.
- BlockDirectory.LoadsExactly: the same.
- Failed commits: the source does not look at their result; commits are taken to succeed.
- Overlapping calls that add blocks: the one caller waits for each call; the locks and coroutines are not modelled.
- Node and transaction bodies: kept as undecoded bytes, with a parameter that says which of them decode.
- Shifts and masks of the Base64 machines are written as arithmetic on six- and eight-bit values.
- Callback details and error texts, moving and closing of sockets, and logging.
- The hash functions, signatures, random generator and clock: parameters.
- How binary literals reach the database, database sessions beyond the statements above, and services, wallet, messaging and configuration.
