# aas-sign: formal model

A Dafny model of the parts of aas-sign that parse and rebuild untrusted binary formats and that
decide when a file may be replaced, with proofs about every input and every run.

| component | modules |
|---|---|
| Byte strings, little-endian fields, thrown exceptions; printed fields at a place in a file | `Wire`, `Print` |
| DER printer and reader, SET OF order, INTEGER and OBJECT IDENTIFIER | `Der`, `Fields`, `DerSet`, `DerScalars` |
| X.509 identity and certificate splitting | `X509` |
| Authenticode CMS: the assembler, the readers, what they say about each other and about messages of any shape | `Cms`, `CmsCursor`, `CmsRoundTrip`, `CmsReaders`, `CmsDigest`, `CmsOctets`, `CmsMessage`, `CmsAssembled` |
| PE certificate table, and images printed field by field | `PeTable`, `PePrint` |
| Cabinet inspection, overlap sweeps, metadata restoration, and cabinets printed field by field | `Ranges`, `Cabinet`, `CabinetInspect`, `CabinetMetadata`, `CabinetPrint` |
| Recursive MSI rewrite | `Msi`, `MsiPreflight`, `MsiSession`, `MsiTracking`, `MsiRewrite`, `MsiOutcome`, `MsiAgain`, `MsiPackage` |
| Staged signing of one file, and of the payloads of a package | `Staging`, `Transcripts`, `StagedSigning`, `Companion`, `PayloadJob`, `PackageRewrite`, `SignFile` |
| Worker pool, Windows quoting, Base64 | `WorkerPool`, `Quoting`, `Base64` |

How the model is set up:

- A C++ exception is the outcome `Throws`. `u64` is a subset type, so each value assigned to it is
  proved not to have wrapped; reads of a file are sequence indexings, each proved in bounds.
- Loops and cursors of the program are methods with loops, objects that it mutates are classes
  (`Fields.DerFields`, `MsiSession.Session`, `Staging.Machine`). Each is proved against a
  specification on values, and the results below are proved about those specifications. The CMS readers
  are specified by a list of fields that tiles the input, not by the cursor that walks it.
- SHA-256 and the installer's file hash are arbitrary functions, given as parameters. So are the signer and the companion
  process: a `Staging.World` gives their answer to each question at each turn, and every result is for all worlds.
  Cabinet compression and every platform call are nondeterministic: they may answer anything and may throw. The companion may
  write only the output file it was given. The rewriter is modelled with any callback that keeps to its own payload file,
  and, when the session has a job, with the callback of src/signing.cpp.
- `Session.failed`, `Session.calls`, `Machine.history` and `Machine.log` are ghost records of what happened.
  `Machine.Valid` says that `history` leads from the first tree to the present one, one write, rename or removal at a
  time, and that every entry of `log` is the world's own answer at its turn. "Evidence" below always means answers in
  that log, and `Transcripts.Proves` says exactly which: every question of the signing, in order, with its answer.
- A throw has a reason. `Machine.failed` and `Session.failed` record that a platform call failed; a signing that throws
  without that stopped at the first answer that was not good (`Transcripts.Refused`), and a rewrite that throws
  without that names the payload, callback or cabinet at fault (`MsiRewrite.Blamed`).
- The file formats that the readers take apart are also printed, field by field with field widths and no offsets, from
  the format's own description: CFHEADER, CFFOLDER, CFDATA and CFFILE records ([MS-CAB], section 2), the PE/COFF headers
  and certificate table, signed messages (section 9 of RFC 2315), packages made of cabinets. The readers are proved to
  return what was printed, and to accept exactly what they should. A printed file need not be canonical: lengths,
  reserves, unused fields and bytes in between are arbitrary.
- `Companion` describes a companion that does its work: a format of files into which it puts messages and out of which
  it takes them. Everything else holds for any companion; the results there say that with one that works the
  signing succeeds exactly when the signer's answer is good enough, and what file it makes.
- `hide` statements keep definitions that a proof does not need away from the verifier, and
  `{:induction false}` stands wherever Dafny would otherwise try induction by itself: every induction is
  written out.

Results that qualify what one might expect of the code:

- `write_length` drops the bits above the thirty-second, so `der_read_tlv` undoes `der_wrap` exactly for contents below
  2^32 bytes (`Der.ReadUndoesWrap`).
- `preserve_cabinet_metadata` takes the file-table offset from the rebuilt cabinet and, unlike
  `inspect_cabinet`, does not require it to lie past the header. With an offset below 26 a metadata window can
  overwrite header bytes, the table offset among them, after all checks have passed
  (`CabinetMetadata.UnsafeHeaderExists`). `TableSurvivesIffFound` gives the exact condition, on the table
  offset and the metadata to be written, under which the header still names the same table, and
  `RegionSurvivesIffSpared` that for any other part of the file; `TablePastHeaderIsSafe` says that
  every cabinet laid out as `inspect_cabinet` demands meets both. The results on rewalking a rebuilt cabinet carry
  the first condition.
- `try_extract_cms_certs` does not look at inputs under 20 bytes, but the CMS reader opens some messages of 17 to 19
  bytes. On such a message the two disagree unless its SignedData holds no certificates anyway
  (`CmsReaders.ReadersAgreeOnSignedData`, with a message of 19 bytes in `ShortMessageDisagrees`). And when a message has no
  certificates field, `x509_split_certs` returns the message itself as the one certificate (`CmsReaders.SplitOfMessage`).
- `der_oid` prints 40 * c1 + c2 as one octet; the identifier reads back exactly when that sum is below 128 and the first
  two components are in the ranges of X.690, section 8.19.4 (`DerScalars.OidReadsBack`). Every identifier in use is.
- The Microsoft C runtime reads the program name by simpler rules than the arguments, so the whole command line
  reads back exactly when the name holds no quotation mark and does not end in a backslash
  (`Quoting.CommandLineReadsBack`). The arguments always read back.

## Model

| member | source | states |
|---|---|---|
| `Der.WriteLength` | src/der.cpp:5-28 | appends the one to five length octets, the five-octet form modulo 2^32 |
| `Der.CatParts` | src/der.cpp:49-58 | the append loop yields the concatenation of the parts |
| `Der.ReadLength` | src/x509.cpp:19-26 | the shift loop computes the big-endian value of the length octets |
| `Der.ReadTlvInPlace` | src/x509.cpp:6-34 | the position-by-position reader refines the value reader, including all three refusals |
| `Der.ReadIgnoresSuffix` | src/x509.cpp:6-34 | what is read depends only on the field's own bytes |
| `Der.EncodingsArePrefixFree` | src/x509.cpp:6-34 | no proper extension of a whole field is a whole field |
| `Der.ReadUndoesWrap` | src/der.cpp:5-37 | reading a wrapped field in front of any suffix recovers tag, header and content if and only if the content is shorter than 2^32 bytes |
| `Der.WrapIsMinimal` | src/der.cpp:5-37 | among all encodings that the reader accepts for a field, the printed one is the shortest and the only one of its length (X.690, section 10.1) |
| `Fields.ElementsIffTiled` | src/cms.cpp:130-148 | splitting a range into fields and concatenating fields are inverse, both directions |
| `Fields.DerFields.constructor` | src/cms.cpp:132 | the cursor starts at the field's content |
| `Fields.DerFields.Take` | src/cms.cpp:133-139 | takes the first field when it has the tag and leaves the others; otherwise throws, and no tiling starts with that tag |
| `Fields.DerFields.Next` | src/cms.cpp:140-141 | the tag at the cursor, zero at the end |
| `DerSet.AppendSorted` | src/der.cpp:169-184 | the sort and append loop prints the canonical set |
| `DerSet.SetOfIsCanonical` | src/der.cpp:169-184 | any permutation of the parts gives the same bytes; the parts are emitted ascending and none is lost or added |
| `DerSet.SortOrderIsX690` | src/der.cpp:175-179 | on whole fields `lexicographical_compare` is the zero-padded order of X.690, section 11.6 |
| `DerScalars.IntegerFromOctets` | src/der.cpp:60-75 | drops redundant zero octets and adds the sign octet, in the loop's own form |
| `DerScalars.MinimizeKeepsValue` | src/der.cpp:60-75 | every octet string keeps its value, and the contents are minimal (X.690, section 8.3) exactly when there was an octet at all |
| `DerScalars.MinimalIsUnique` | src/der.cpp:60-75 | minimal contents octets of equal value are equal |
| `DerScalars.IntegerFromValue` | src/der.cpp:77-99 | the buffer-filling overload refuses negative values and prints every other `int64_t` |
| `DerScalars.IntegerIsMinimal` | src/der.cpp:77-99 | what is printed is the one minimal encoding of the value |
| `DerScalars.AppendArc` | src/der.cpp:120-131 | the ten-octet scratch buffer suffices and yields the base-128 digits in order |
| `DerScalars.OidFromComponents` | src/der.cpp:113-133 | refuses fewer than two components, prints the identifier otherwise |
| `DerScalars.OidReadsBack` | src/der.cpp:113-133 | an independent reader of X.690, section 8.19, recovers the components if and only if the first two are in range and fit seven bits |
| `DerScalars.SignedDataOidOctets` | src/x509.cpp:81-84 | the printer yields the nine octets that the reader compares against |
| `X509.ReadCertId` | src/x509.cpp:36-79 | the pointer walk refines the reader on values |
| `X509.IdentityOfCertificate` | src/x509.cpp:36-79 | on every certificate laid out as in RFC 5280, section 4.1, with or without a version, serial and issuer come back as they stand |
| `X509.TryExtractCmsCerts` | src/x509.cpp:88-136 | the nested loops yield the certificates of the first field tagged [0], or report that this is no CMS message |
| `X509.SplitCertificates` | src/x509.cpp:138-155 | CMS first, otherwise concatenated DER |
| `X509.CertificatesAreEncoded` | src/x509.cpp:88-155 | whichever branch is taken, every certificate returned is one whole field |
| `X509.RawElementsOfCat` | src/x509.cpp:147-154 | splitting a concatenation of whole fields gives the fields back |
| `X509.ChainSplits` | src/x509.cpp:138-155 | concatenated fields, the first of which does not open with an identifier as a CMS message would, come back as they are, in order |
| `CmsCursor.SignedDataView` | src/cms.cpp:155-165 | accepts exactly the inputs that are one ContentInfo of SignedData with nothing after it |
| `CmsCursor.SkipSignedDataHeader` | src/cms.cpp:166-172 | takes version 1, a SET and a SEQUENCE, or no field list starts so |
| `CmsCursor.CheckSigner` | src/cms.cpp:213-248 | accepts exactly the fields that are a complete SignerInfo |
| `CmsCursor.HasSignerCursor` | src/cms.cpp:203-251 | the loop over the cursor agrees with the reader on lists of fields, for every input |
| `CmsCursor.ExtractCursor` | src/cms.cpp:175-201 | likewise for the extraction of the indirect data |
| `CmsRoundTrip.ExtractUndoesAssemble` | src/cms.cpp:59-201 | extraction returns the indirect data byte for byte when it has the SHA-256 shape and throws otherwise |
| `CmsRoundTrip.SplitUndoesAssemble` | src/cms.cpp:64-126 | an assembled message yields the certificates of the buffer it was assembled from |
| `CmsRoundTrip.AssembleIsFixedPoint` | src/cms.cpp:59-127 | assembling with an assembled message as the certificate input reproduces it |
| `CmsRoundTrip.HasSignerOfAssembled` | src/cms.cpp:203-251 | true exactly when issuer, serial and signature of an assembled message qualify, otherwise throws; never false |
| `CmsReaders.ReadersAgreeOnSignedData` | src/x509.cpp:88-136 | on a message that the CMS reader opens, the certificate reader sees the same SignedData if and only if the message has 20 bytes or its SignedData holds no certificates |
| `CmsReaders.ShortMessageDisagrees` | src/x509.cpp:91 | a message of 19 bytes that the CMS reader opens and the certificate reader does not look into |
| `CmsReaders.SplitOfMessage` | src/x509.cpp:138-155 | on every message that the CMS readers walk: the fields of its certificates field, or the message itself when it has none |
| `CmsDigest.DigestCoversMessage` | src/cms.cpp:27-95 | the digest sent to the signer is that of the attributes parsed back out of the message, retagged as SET; its only messageDigest is that of the indirect data's contents octets (RFC 5652, section 5.4; RFC 2315, section 9.3) |
| `CmsDigest.AcceptedIsPrefixFree` | src/cms.cpp:155-165 | no proper prefix or extension of an input accepted by either CMS reader is accepted by either |
| `CmsMessage.SignerReads` | src/cms.cpp:213-248 | a signer printed with or without authenticated and unauthenticated attributes is accepted if and only if it is complete |
| `CmsMessage.HasSignerReads` | src/cms.cpp:203-251 | a message with any number of signers, with or without certificates and revocation lists: true if and only if there is a signer and all are complete, false if and only if there is none, otherwise a throw |
| `CmsMessage.ExtractReads` | src/cms.cpp:175-201 | such a message yields its indirect data if and only if version, content type, digest algorithm and digest are as they should be |
| `CmsMessage.TimestampMakesNoDifference` | src/cms.cpp:243-248 | adding an unauthenticated attribute to the signer changes neither reader's answer |
| `CmsAssembled.AssembledOctets` | src/cms.cpp:59-127 | the assembled message octet by octet: every tag, identifier, version, and their order |
| `CmsAssembled.DigestOctets` | src/cms.cpp:27-57 | the digest to sign, as the hash of the literal attribute octets around the hash of the indirect data's contents |
| `PeTable.ReadTable` | src/signing.cpp:174-195 | the header reads, each refused past the end of the file, give the certificate table or its absence |
| `PeTable.CheckPayload` | src/signing.cpp:203-209 | accepts exactly one signer-bearing message followed by zero bytes only |
| `PeTable.CheckEntry` | src/signing.cpp:198-216 | one turn of the walk keeps or loses acceptance as the rest of the table does, and makes progress |
| `PeTable.PeHasSignature` | src/signing.cpp:174-219 | true if and only if signed entries tile a table that is present, false if and only if it is absent; no offset or length wraps |
| `PeTable.TilesExactly` | src/signing.cpp:196-218 | in a tiling every entry is 8-aligned, starts where the one before ended, lies in the table, and the last reaches its end |
| `PePrint.CertTableReads` | src/signing.cpp:174-195 | of every image printed as PE32 or PE32+: the fifth data directory if there is one and it is not zero, none otherwise, and the exact conditions under which it is refused |
| `PePrint.OtherHeaderRefused` | src/signing.cpp:183-186 | an optional header of any other format is refused |
| `PePrint.TableReads` | src/signing.cpp:196-218 | a printed list of signed entries, each padded, is walked to its end if and only if all have the right revision, kind and length |
| `PePrint.SignedImageIsFound` | src/signing.cpp:174-219 | a printed image whose table holds signed entries is reported as signed |
| `Ranges.Sweep` | src/msi_recursive.cpp:122-134 | the sorted sweep accepts if and only if no two ranges overlap and none starts too early |
| `Ranges.SweepFindsOverlaps` | src/msi_recursive.cpp:122-134 | the same for the specification, in any input order and with empty ranges, where the tie-break matters |
| `Ranges.DisjointFit` | src/msi_recursive.cpp:103-127 | disjoint ranges below a bound together take no more than the bound |
| `CabinetInspect.ReadCabinetHeader` | src/msi_recursive.cpp:51-66 | the header reads, with the optional reserve fields, refine the header on values |
| `CabinetInspect.SkipBlocks` | src/msi_recursive.cpp:77-85 | the walk over data blocks stays in the file and no subtraction wraps |
| `CabinetInspect.ReadFolders` | src/msi_recursive.cpp:67-89 | the folder loop; it stops early only when the expansion budget is exceeded |
| `CabinetInspect.ReadName` | src/msi_recursive.cpp:105-110 | reads the NUL-terminated name of at most 255 bytes |
| `CabinetInspect.ReadRecords` | src/msi_recursive.cpp:93-115 | the record loop: the table on values, no name twice, payloads numbered in order |
| `CabinetInspect.CheckOverlaps` | src/msi_recursive.cpp:118-134 | both sweeps together accept if and only if nothing overlaps |
| `CabinetInspect.InspectCabinet` | src/msi_recursive.cpp:49-135 | accepts if and only if the layout is well formed, disjoint and within both budgets; then returns the members and the new budgets |
| `Cabinet.AcceptedDoesNotOverlap` | src/msi_recursive.cpp:49-135 | with any number of folders: header with folder records, file table and every folder's data are inside the file and pairwise apart |
| `Cabinet.MembersFitExpanded` | src/msi_recursive.cpp:103-127 | the sizes of all members sum to no more than the folders expand to |
| `CabinetPrint.BlocksRead` | src/msi_recursive.cpp:77-85 | the walk over printed CFDATA records ends after the last one, with the sum of their expanded lengths |
| `CabinetPrint.FolderReads` | src/msi_recursive.cpp:67-89 | a printed CFFOLDER with its data is read back, reserves included |
| `CabinetPrint.HeaderReads` | src/msi_recursive.cpp:51-66 | a printed CFHEADER is accepted if and only if its size is the file's and at most 1 GiB and its flags are supported, and its counts, offsets and reserves come back |
| `CabinetPrint.FilesRead` | src/msi_recursive.cpp:93-115 | printed CFFILE records come back in order, or are refused exactly when one has an unusable name or does not lie in its folder |
| `CabinetPrint.CabinetReads` | src/msi_recursive.cpp:49-117 | a whole printed cabinet is read if and only if every part is readable, and then as printed |
| `CabinetPrint.AcceptableMeans` | src/msi_recursive.cpp:86-134 | what acceptance within the budgets means, with the limits as numbers |
| `CabinetPrint.SafeNameMeans` | src/msi_recursive.cpp:30-35 | which member names are refused, by their characters |
| `CabinetPrint.MatchesIffListed` | src/msi_recursive.cpp:136-164 | a rebuilt table matches if and only if a plain walk of it lists the members' names and payload sizes in order |
| `CabinetMetadata.PreserveMetadata` | src/msi_recursive.cpp:136-164 | in place on an array: succeeds if and only if the file as found matches names, order and sizes; then all metadata is written |
| `CabinetMetadata.PatchKeepsLaterMatches` | src/msi_recursive.cpp:145-162 | no write alters what a later iteration reads |
| `CabinetMetadata.PatchOnlyWindows` | src/msi_recursive.cpp:159-161 | bytes outside the six-byte windows are unchanged |
| `CabinetMetadata.PatchFillsWindows` | src/msi_recursive.cpp:159-161 | each window holds its member's date, time and attributes |
| `CabinetMetadata.RecordsAreRaw` | src/msi_recursive.cpp:94-115 | the table that the inspection accepts is the table that a plain walk reads |
| `CabinetMetadata.PatchedTableReads` | src/msi_recursive.cpp:136-164 | rewalking the table yields names, order, dates, times and attributes as before, with the payloads' sizes |
| `CabinetMetadata.RegionSurvivesIffSpared` | src/msi_recursive.cpp:136-164 | any part of the file is unchanged if and only if no window writes a different byte into it |
| `CabinetMetadata.TableSurvivesIffFound` | src/msi_recursive.cpp:143-161 | the header names the same table, by offset and count, if and only if no window writes a different byte to those six |
| `CabinetMetadata.TablePastHeaderIsSafe` | src/msi_recursive.cpp:90-91 | a table that starts past the header spares every part of it |
| `CabinetMetadata.PatchedCabinetReads` | src/msi_recursive.cpp:136-164 | whenever those six bytes are spared, the file read through its own header lists the members as before |
| `CabinetMetadata.UnsafeHeaderExists` | src/msi_recursive.cpp:136-164 | a concrete file that passes every check and loses its table offset |
| `MsiPreflight.ReadMedia` | src/msi_recursive.cpp:178-190 | accepts exactly ordered intervals of distinct embedded cabinets |
| `MsiPreflight.ReadFiles` | src/msi_recursive.cpp:191-204 | accepts exactly embedded files with positive distinct sequences and distinct identifiers, and maps each |
| `MsiPreflight.MapMembers` | src/msi_recursive.cpp:210-215 | accepts exactly when every member has its own File row, not yet taken |
| `MsiPreflight.ReadHashes` | src/msi_recursive.cpp:232-238 | accepts exactly rows without options and collects their files |
| `MsiSession.AllFound` | src/msi_recursive.cpp:222 | accepts exactly when every File row names a member |
| `MsiSession.Session.LoadCabinets` | src/msi_recursive.cpp:205-221 | the cabinet loop returns the inspected cabinets with their payloads extracted, or a call failed or a cabinet is unacceptable |
| `MsiSession.Session.LoadBinaries` | src/msi_recursive.cpp:223-231 | the Binary loop keeps the total within the limit and copies every stream |
| `MsiSession.Session.Preflight` | src/msi_recursive.cpp:167-238 | succeeds with a plan that matches the database, or a platform call failed or the database is not acceptable |
| `Msi.SequenceFixesCabinet` | src/msi_recursive.cpp:178-190 | Media intervals are disjoint: a sequence number lies in at most one |
| `MsiPackage.IntervalsPartition` | src/msi_recursive.cpp:178-190 | the Media intervals partition the numbers from 1 to the last sequence number: each lies in exactly one, and no other number in any |
| `MsiPackage.MediaMeans` | src/msi_recursive.cpp:178-190 | Media rows are accepted if and only if they name distinct embedded cabinets and their last numbers never go down |
| `MsiPackage.FileRowMeans` | src/msi_recursive.cpp:195-203 | a File row is accepted if and only if its attribute word, given bit by bit, marks it compressed, its number is positive and its size is not negative |
| `MsiPackage.InspectAddsUp` | src/msi_recursive.cpp:205-221 | the cabinet loop succeeds if and only if every cabinet is good by itself and all together are within both limits; the totals are the sums |
| `MsiPackage.InspectLists` | src/msi_recursive.cpp:205-221 | the members of all cabinets are their records in order, numbered through |
| `MsiPackage.BinariesAddUp` | src/msi_recursive.cpp:223-231 | the Binary loop succeeds if and only if all streams are there and together fit what is left |
| `MsiPackage.PreflightAddsUp` | src/msi_recursive.cpp:167-238 | any database with acceptable rows is accepted if and only if cabinets and Binary streams are good, the File rows match, and everything is at most 1 GiB and 65535 payloads; total and count are the sums |
| `MsiPackage.PackageIsAccepted` | src/msi_recursive.cpp:167-238 | a package made of given cabinets, its files numbered from 1 on, is accepted if and only if those are good, no name occurs twice, and both limits hold |
| `Msi.PathsAreIndices` | src/msi_recursive.cpp:113 | members are numbered consecutively across all cabinets |
| `Msi.MembersFitTotal` | src/msi_recursive.cpp:205-221 | the budget counted for the cabinets covers the sizes of all their members |
| `MsiTracking.PlanIsAccounted` | src/msi_recursive.cpp:205-231 | after the preflight the total covers all extracted members and Binary streams and is at most 1 GiB |
| `MsiTracking.PlanTracks` | src/msi_recursive.cpp:205-238 | the preflight establishes what the signing phase keeps |
| `MsiTracking.RowsStep` | src/msi_recursive.cpp:259 | updating one row keeps every File row in step with its payload |
| `MsiTracking.HashesStep` | src/msi_recursive.cpp:260-264 | likewise for the hash rows |
| `MsiTracking.StreamsKeep` | src/msi_recursive.cpp:250-272 | signing a later payload leaves finished cabinets in step |
| `MsiTracking.BalancedStep` | src/msi_recursive.cpp:245-247 | the running total moves exactly as the sizes of the payload files do |
| `MsiRewrite.SignPayload` | src/msi_recursive.cpp:240-249 | neither subtraction wraps, the total keeps covering all payloads within 1 GiB and moves exactly with their sizes; the number of preserved files is that of the candidates left unsigned; a throw has its reason |
| `MsiRewrite.CountSigned` | src/msi_recursive.cpp:245-248 | the size of a signed payload takes the place of the old one, or the sum would go over 1 GiB |
| `MsiRewrite.SignIfUnsigned` | src/signing.cpp:237-245 | the callback writes its own payload only, and nothing when it answers false; the one in use answers false only for a signed table, and true only for a file that had none, with the logged answers that show how the new bytes were made |
| `MsiRewrite.UpdateRows` | src/msi_recursive.cpp:254-264 | the FileSize range check cannot fail; size and hash are the payload's |
| `MsiRewrite.SignMember` | src/msi_recursive.cpp:252-265 | one member keeps rows, hashes, streams and total in step |
| `MsiRewrite.RebuildCabinet` | src/msi_recursive.cpp:266-271 | the stored stream is some cabinet that matched the members, with its metadata restored |
| `MsiRewrite.SignCabinet` | src/msi_recursive.cpp:250-272 | a cabinet is rebuilt exactly when one of its members was signed |
| `MsiRewrite.SignBinaries` | src/msi_recursive.cpp:273-276 | each signed Binary stream is stored, the others stay |
| `MsiRewrite.Rewrite` | src/msi_recursive.cpp:167-279 | transactional: nothing is committed if it throws or signs nothing; otherwise one commit with everything in step; no callback before the whole preflight passed; a refusal without callback or platform failure means an unacceptable database; in the end every payload has been through the callback; the counts are those of the signed and the preserved candidates; a commit has a package code other than the old one; a throw names its reason |
| `MsiOutcome.PayloadPathsDiffer` | src/msi_recursive.cpp:113 | no two payloads share a path, be they members or Binary streams |
| `MsiOutcome.EveryMemberHasOneRow` | src/msi_recursive.cpp:205-222 | each member has exactly one File row, of equal size, whose sequence lies in the interval of the member's cabinet and of no other |
| `MsiOutcome.EveryRowHasOneMember` | src/msi_recursive.cpp:205-222 | each File row has exactly one member |
| `MsiOutcome.SizesFollowPayloads` | src/msi_recursive.cpp:250-277 | after a commit every File row states its payload's size and is otherwise unchanged |
| `MsiOutcome.HashesFollowPayloads` | src/msi_recursive.cpp:260-264 | after a commit the hash row of a changed unversioned file has the hash of its new bytes; that of any other member stays |
| `MsiOutcome.OtherHashesStay` | src/msi_recursive.cpp:250-265 | a hash row for a file in no cabinet stays as it was |
| `MsiOutcome.CommittedRowsOk` | src/msi_recursive.cpp:167-279 | the committed tables pass every row check of the preflight again |
| `MsiOutcome.CommittedMappingOk` | src/msi_recursive.cpp:207-222 | the committed File rows pass the mapping check against the old cabinets at the sizes of the payload files |
| `MsiOutcome.CommittedCabinetsList` | src/msi_recursive.cpp:250-277 | every committed cabinet's own table lists its members in order with those sizes and the old metadata, a rebuilt one under the header condition |
| `MsiOutcome.CommittedStreamsMap` | src/msi_recursive.cpp:207-222 | the committed database passes the CAB/File mapping check again: its File rows against the members that its own cabinet streams list, rebuilt ones under the header condition |
| `MsiOutcome.CommittedBinaries` | src/msi_recursive.cpp:273-277 | every committed Binary stream is its signed payload, or as it was |
| `MsiAgain.CommittedIsPreflightable` | src/msi_recursive.cpp:167-277 | when only Binary streams were signed, the committed database passes the whole preflight again, budgets included, and counts the total that the rewrite ended with |
| `PackageRewrite.RewriteStaged` | src/signing.cpp:232-248 | the rewrite run on the staged package with the signing callback: it throws, for a stated reason, and leaves the package, or the package opens as a database that carries every signed payload through, each with its evidence in the log of this run |
| `PackageRewrite.BinaryImagesAreSigned` | src/signing.cpp:237-245 | after such a rewrite every image in the Binary table was signed, the log showing how its new bytes were made, or carried a signature already; everything else is unchanged |
| `PackageRewrite.MemberImagesAreSigned` | src/signing.cpp:237-245 | the same for the payload behind every File row, whose size the row states |
| `Staging.WriteIs` | src/signing.cpp:40-42 | writing one file outside the user's directories, or the dump file, disturbs no other user file, hard links included |
| `Staging.RenameIs` | src/signing.cpp:152 | a rename moves the bytes and leaves every other path alone |
| `Transcripts.MentionsIffContains` | src/signing.cpp:87-91 | the text search finds a phrase if and only if it is there |
| `Transcripts.ProvesGrows` | src/signing.cpp:95-153 | evidence is not lost as the log grows |
| `Transcripts.SignerIsAskedOnce` | src/signing.cpp:106-120 | a successful signing asks the signer exactly once |
| `Transcripts.LogTellsOfOneData` | src/signing.cpp:106-150 | the log of a successful signing: the digest asked for covers indirect data computed just before, and in the end a message with a signer found in the new file, and the data computed of the new file, are for that same data |
| `Transcripts.RefusedIsNotOk` | src/signing.cpp:79-153 | with the same answers a signing cannot be both refused and successful |
| `StagedSigning.ExtractExisting` | src/signing.cpp:79-93 | "not signed" needs a failed run that names the missing signature for this kind of file; "signed" needs a message with a signer; anything else throws |
| `StagedSigning.ChooseSource` | src/signing.cpp:101-105 | what is signed is the input when it has no signature, otherwise what the removal of its signature left |
| `StagedSigning.ObtainMessage` | src/signing.cpp:106-120 | the digest asked for is that of the attributes for the data extracted from the source, and the message is assembled from the answer; a throw is a bad answer or a platform failure |
| `StagedSigning.AttachMessage` | src/signing.cpp:121-136 | the output is the source with that message attached, timestamped unless switched off |
| `StagedSigning.ConfirmOutput` | src/signing.cpp:137-150 | the output's message has a signer, and both its indirect data and the recomputed data are those that were signed |
| `StagedSigning.SignStaged` | src/signing.cpp:95-153 | leaves the file as it was and throws, because a platform call failed or at the first answer that is not good, or installs a file for which the answers given during this signing, in order and nothing else, are complete evidence, and dumps the message found in it; touches no other file |
| `Companion.QualifiedIsNotRefused` | src/signing.cpp:95-153 | with a companion that works, a signing whose signer names itself in a message of at most 16 MiB is not refused |
| `Companion.SuccessIsQualified` | src/signing.cpp:95-153 | a signing that succeeded had such an answer, and made the unsigned part with the one assembled message, timestamped if asked for |
| `Companion.SignedAgain` | src/signing.cpp:101-105 | signing a signed file replaces its message: the result is that of signing the unsigned part |
| `Companion.SignWithCompanion` | src/signing.cpp:95-153 | `sign_staged` with such a companion and no platform failure: succeeds if and only if the answer qualifies |
| `Companion.HonestWorldExists` | src/signing.cpp:79-93 | there are such companions, with the words for a missing signature |
| `StagedSigning.SignPayloadFile` | src/signing.cpp:237-245 | the rewriter's callback: writes only its own payload; false leaves one with a signed table alone, true has evidence, from the answers given meanwhile, for one that had no table; a throw is an unreadable image, a bad answer or a platform failure |
| `SignFile.Publish` | src/signing.cpp:250 | the one step that changes a user's file: atomic, and it changes no other |
| `SignFile.SignFile` | src/signing.cpp:221-252 | history and log are the whole run: one step and one answer at a time; in every tree the original bytes are in place, until the last step of a run that returns replaces them; then the logged answers are evidence for the installed file, made from the input or from the package rewritten from it; a throw has its reason: the kind, an image that cannot be read, the rewrite, an answer, or the platform |
| `SignFile.KindsAreTold` | src/signing.cpp:48-64 | the kind of a file from its first bytes and extension, both directions |
| `SignFile.CandidatesAreImages` | src/msi_recursive.cpp:36-42 | every image that can be read is handed to the callback |
| `WorkerPool.PoolIsSafe` | src/main.cpp:457-482 | in every reachable state of every interleaving: no index claimed twice, no slot written twice or by another worker, at most min(max_parallel, files) in flight, bounded counter |
| `WorkerPool.BoundIsReached` | src/main.cpp:457-482 | some run has that many in flight at once |
| `WorkerPool.JoinIsComplete` | src/main.cpp:466-483 | at the join every file was claimed once and its slot holds the one result written to it |
| `WorkerPool.EveryRunJoins` | src/main.cpp:466-483 | no deadlock and no endless run: a run has joined exactly when it has 2 * (files + workers) steps |
| `WorkerPool.Summarize` | src/main.cpp:485-505 | status zero if and only if all results are good |
| `WorkerPool.StatusReflectsRun` | src/main.cpp:457-483 | at the join all results are good if and only if every signing that ran succeeded, and every file's signing ran |
| `WorkerPool.ExitStatus` | src/main.cpp:457-505 | the status after the join is zero if and only if every recorded signing succeeded; the failures listed are exactly the files whose signing failed, in order |
| `Quoting.QuoteArgument` | src/win32.cpp:838-855 | the loop with its backslash counter prints the quoted form, and refuses NUL |
| `Quoting.BuildCommand` | src/win32.cpp:947-950 | quotes and joins, and refuses lines over the limit |
| `Quoting.ParseUndoesJoin` | src/win32.cpp:838-855 | the C runtime rules recover every list of arguments |
| `Quoting.CommandLineReadsBack` | src/win32.cpp:947-948 | the whole line reads back if and only if the program name is plain |
| `Base64.EncodeLoop` | src/base64.cpp:7-21 | the loop by index prints the encoding, in both alphabets |
| `Base64.LettersAreRfc4648` | src/base64.cpp:4-5 | the letters are those of RFC 4648 in order, in both alphabets, and read back |
| `Base64.TextIsLetters` | src/base64.cpp:7-21 | the text is, letter by letter, the sextets of the octets and the padding |
| `Base64.DecodeLoop` | src/base64.cpp:33-50 | the wrapping 32-bit accumulator yields the whole octets of the bit string that the letters spell |
| `Base64.DecodeStep` | src/base64.cpp:42-47 | the bits lost to the wrap-around were emitted before |
| `Base64.DecodeUndoesEncode` | src/base64.cpp:57-103 | decoding an encoding returns the octets, in both alphabets |
| `Base64.NoiseIsIgnored` | src/base64.cpp:39-41 | a run of characters outside the alphabet, inserted anywhere, changes nothing |
| `Base64.OnlyLettersMatter` | src/base64.cpp:39-41 | texts with the same letters decode alike, however foreign characters are scattered among them |

## Left out

- TLS, HTTP, sockets, the loopback server, process spawning and browser launch (src/posix.cpp, src/win32.cpp apart from quoting): foreign calls.
- src/azure.cpp, src/oidc.cpp, src/auth_laptop.cpp, src/urlenc.cpp, src/signer.cpp and option parsing: network flows and short string handling that would add only easy members.
- src/msi_package_posix.cpp and src/msi_package_win32.cpp: stream extraction, cabinet extraction and creation, row updates and the commit appear only as contracts. Extraction may write any bytes, creation may yield any file, a commit is atomic.
- SHA-256, RSA, the installer's file hash and MSZIP/LZX: uninterpreted or opaque.
- The `strtoul` parse in `der_oid`: the model starts from the component list.
- The round-trip and digest results in `CmsRoundTrip` and `CmsDigest` are for messages below 2^32 bytes; above that the printed lengths themselves are wrong, as `Der.ReadUndoesWrap` shows.
- `size_t` is taken to be 64 bits wide, and files to be shorter than 2^64 bytes.
- MsiRewrite.Rewrite: the Binary table's names are taken to be distinct, as its primary key makes them, and a table that does not exist is modelled as one without rows. An UPDATE whose key matches several rows changes them all. The new package code is the platform's choice, any code other than the old one.
- MsiRewrite.Rewrite: that a callback which answers false leaves the payload alone is part of the callback's contract; `StagedSigning.SignPayloadFile` proves it of the callback in use.
- MsiOutcome.CommittedBinaries: the cabinet streams and the streams that hold Binary data are separate maps; a Media row naming `Binary.Foo` beside a Binary row `Foo`, which some installers list as one stream, is taken not to occur.
- MsiOutcome.CommittedCabinetsList: says what a rebuilt cabinet's table lists, not that `inspect_cabinet` would accept the rebuilt file, since compression is opaque and nothing checks its data blocks.
- Companion.SignWithCompanion: is for messages below 2^32 bytes, as the round trips are, and for one file; inside a package the results on `Transcripts.Proves` apply to each payload.
- SignFile.SignFile: how the platform opens a package file is a parameter, and what a commit writes is any file that opens as the committed database; the lower-case extension is a parameter too. Permissions, durability and concurrent writers to the same file are not modelled, nor is a replace that fails halfway, which the platform contract rules out.
- WorkerPool.PoolIsSafe: one signing is one step with an arbitrary result; logging and its mutex are left out, and so is the single-file path, which starts no worker.
- Quoting.QuoteArgument: works on the characters after conversion to UTF-16.
