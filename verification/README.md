# MiniCA: a verified model

This project models the parts of MiniCA where a mistake would be hard to see: the lock-guarded signing protocol over
several tables, the index rewrite that ties a certificate's serials together, the native PKCS#12 writer, log rotation
under crashes, the two-stage resolution of environment tokens, distinguished-name text, backups, the legacy import,
the login cache and the default templates. `dafny verify dfyconfig.toml` checks everything.

## What is modelled

**The signing protocol.** `CaTables` holds the rows of `certificate_authorities`, `certificates` and `ca_locks`, a
contract for the external `openssl ca` command, and each transaction of `src/db.rs` as a function on the tables. `CaDb`
is the same store as a class whose methods update its maps in place, proved against those functions. `CaProtocol` turns
every transaction and every read into one step of a transition system: a worker is a service call from the moment it
acquires the lock row, and any interleaving of workers, soft deletes, restores, nukes, backups and truststore writes is
a run. The clock is an arbitrary number in each step, so locks expire and are stolen at any moment. `CaInvariants` proves
what every step keeps, `CaTheorems` what follows for every run, `CaState` which step may touch which part of a row, and
`CaService` runs the service's critical sections against the store: it says exactly when each call succeeds and what the
tables then hold, and shows that what the call does is such a run. The contract for openssl: issuing appends a `V` entry at the
current serial, which must not be in the index, and advances the serial; revoking flips the entry to `R` or appends
one, and fails on an `R` entry; generating a CRL lists the `R` serials and advances the CRL number. Owner ids are
fresh; keys, certificate bodies and PKCS#12 files are arbitrary step parameters. The per-CA lists of issued
serials and published CRL numbers are kept for the statements only.

**Text and bytes.** `IndexText` is the rewrite of index.txt, on text, with a proof that it is the protocol's abstract
rewrite. `Der`, `Pkcs12` and `Truststore` are the DER writers, the key derivation of RFC 7292 appendix B.2 with SHA-256
left as any function to 32 bytes, and the whole store against a reader written from the formats. `EnvTokens` and
`DnText` are the loops over text in `src/config.rs`, `src/service.rs` and `src/openssl.rs`; `EnvResolution` and
`DnReading` say what they compute, for every text, in terms of the text alone.

**Whole runs elsewhere.** `Logging` is a machine with one file operation per step, and the writer as a class whose every
file operation is a step of it. `LoginCache` interleaves threads at their critical sections. `Templates` runs saves and
deletes. `Backup` goes from tables to a file and back, and `BackupRestore` says what restoring a file of any origin does. `LegacyImport` walks a directory tree twice.

## Where the code and its documentation disagree

- `src/legacy.rs:20-21` promises that the import is idempotent. It is not when a CA directory fails to import and a later
  directory's name is the first one's with surrounding whitespace: the later CA is stored under the trimmed id, and the
  next run imports the first directory's certificates into it. Nor is it when a lock row of a CA in the tree is still
  live, for example one left by a server that stopped less than two minutes ago: the CA is busy (`src/db.rs:1449`), its
  certificates fail, and a run after the expiry imports them. `SecondRunIsIdle` proves idempotence for every database and
  every tree that meets neither; `TwinBreaksIdempotence` builds, for any names with such a pair, a tree on which it fails,
  and `LockBreaksIdempotence` does so for any lock that is live in the first run and expired in the second.
- `subject_attributes` does not invert the printing of RFC 2253 for every value, because `u8::from_str_radix` accepts a
  sign and pieces are trimmed; `SubjectAttributesInvertPrinting` gives the exact condition and `PlusBeforeDigitIsLost` a
  name that is misread.
- An imported certificate's first serial need not be in the CA's index, so after a renewal a revocation does not reach
  it: `ImportedSerialEscapes` is such a run. `RevocationRevokesExactly` says which serials a revocation reaches, and
  `RevocationReachesHistory` that in every run it reaches each one the index recorded while the row held it.
- Two object identifiers can be written alike, 0.40 and 1.0 for one: `OidsCollideExactly` says which, and
  `ReadOidExactly` when one reads back.

## Model

| member | source | states |
|---|---|---|
| `CaDb.Db.AcquireCaLock` | src/db.rs:1435-1459 | purges expired rows and then takes the lock row, or reports a live lock or an unknown CA and changes nothing |
| `CaDb.Db.ReleaseCaLock` | src/db.rs:1461-1469 | removes the lock row only if it is the caller's |
| `CaDb.Db.InsertCa` | src/db.rs:345-392 | adds the row or, on a taken id, nothing |
| `CaDb.Db.InsertCertWithState` | src/db.rs:807-882 | with the lock re-verified, adds the certificate, writes the CA's index and serial and drops the lock; otherwise nothing |
| `CaDb.Db.UpdateCertWithState` | src/db.rs:1066-1117 | the same for a renewal, refused for a revoked row |
| `CaDb.Db.RevokeCertWithState` | src/db.rs:1119-1168 | the same for a revocation, with the new CRL and its number |
| `CaDb.Db.RenewCaWithState` | src/db.rs:1206-1260 | the same for a CA renewal, replacing every listed bundle and clearing the truststore |
| `CaTheorems.CommitNeedsLock` | src/db.rs:2215-2227 | a transaction that ends a call succeeds only while the caller's lock row is there, removes it, and what the caller read is what the tables hold |
| `CaTheorems.LockLastsItsTtl` | src/db.rs:1435-1459 | in every run without a nuke a worker that acquired the lock holds it or has ended its call as long as nobody acquires at a clock past its time to live, whatever workers and unlocked operations do in between |
| `CaTheorems.LostLockNeverCommits` | src/db.rs:1435-1469 | a worker whose lock row was purged or swept can never commit afterwards, in any continuation of any run |
| `CaTheorems.LockFreezes` | src/db.rs:2215-2227 | as long as a worker still has its lock row, nobody has changed the CA's signing state or its certificates' files since it acquired it |
| `CaTheorems.NoLostUpdate` | src/service.rs:565-617 | at every successful commit the CA's index, serial, CRL number and certificate are those read after acquiring and have not changed since |
| `CaTheorems.BundlesAreCurrent` | src/service.rs:886-939 | every stored bundle, soft-deleted rows too, embeds its CA's current certificate and its row's own certificate, key, PKCS#12 and password, in every reachable state |
| `CaTheorems.TruststoreIsCurrent` | src/db.rs:1277-1284 | a stored truststore was built from the CA's current certificate, in every reachable state |
| `CaTheorems.CrlMatchesIndex` | src/openssl.rs:849-887 | a stored CRL lists exactly the serials marked `R` in the stored index, in every reachable state |
| `CaTheorems.RevocationIsPermanent` | src/service.rs:458-493 | until a nuke a revoked row keeps its revocation and its files, and its serial and every serial the CA issued for it under its subject are `R` in the index |
| `CaTheorems.RevocationReachesHistory` | src/openssl.rs:889-963 | a serial that the index recorded under the row's subject while the row held it, imported or issued, is `R` in every later state in which the row is revoked under that subject |
| `CaTheorems.ImportedSerialEscapes` | src/service.rs:734-739 | a run that imports a certificate, renews it under the same subject and revokes it, and leaves its first serial unrevoked |
| `CaTheorems.RevocationRevokesExactly` | src/openssl.rs:889-963 | a revocation revokes its own serial and exactly the serials recorded under the subject the index has for that serial, or under the certificate's when it has none |
| `CaTheorems.CommittedSerialsDiffer` | src/openssl.rs:1434-1447 | two certificates committed under one CA by issue or renew between nukes never share a serial |
| `CaTheorems.CrlNumbersIncrease` | src/db.rs:1145-1148 | two CRLs published by one CA between nukes have strictly increasing numbers |
| `CaInvariants.RevokeFilesKeepsIndex` | src/openssl.rs:889-963 | revoking keeps serials distinct, loses no entry and no revocation, revokes every serial under the subject, and the new CRL lists the revoked serials |
| `CaInvariants.StepKeepsInv` | src/service.rs:1048-1076 | every step of every worker and every unlocked operation keeps the invariant over rows, locks, workers and backups |
| `CaInvariants.ExecKeepsInv` | src/db.rs:933-1013 | the invariant holds after every run |
| `CaState.OnlyIssuingMovesSerial` | src/db.rs:807-1260 | in every run, only issuing and renewing a certificate moves a CA's serial, by one; only they and a revocation touch the index, only a revocation and a CA renewal the CRL, only a CA renewal the certificate and PKCS#12, nothing the key, password and name |
| `CaState.SerialCountsIssuances` | src/openssl.rs:1434-1447 | between nukes a CA's serial moves on by exactly the number of certificates issued and renewed under it |
| `CaState.OnlyRenewalReplacesCert` | src/db.rs:1066-1260 | in every run, only a renewal replaces a row's certificate and PKCS#12, only renewals its bundle, only a revocation its time and reason |
| `CaState.KeysStay` | src/db.rs:1066-1117 | until a nuke a certificate row keeps its CA, name, key, signing request and password |
| `CaService.Service.CreateCa` | src/service.rs:281-334 | succeeds exactly when openssl does, the id is new and no active CA has the name, and then adds one row with an empty index, the first CRL if CRLs are on, and the CRL number that follows |
| `CaService.Service.RevokeCert` | src/service.rs:452-497 | succeeds exactly for an active, unrevoked row of an active CA whose lock is free and whose serial is not `R`; then the row differs in time and reason only, the CA in the index entries that turn `R` and in the CRL that follows, its serial included in what stays; the steps added are this worker's own and other CAs' live locks stay |
| `CaService.Service.RenewCert` | src/service.rs:822-870 | succeeds exactly when openssl does, row and CA are active, the row is unrevoked, the lock free and the CA's serial not in its index; then the row has the certificate issued at that serial, the new PKCS#12 and the bundle of both with the old key and password, the CA one more `V` entry and the next serial, and nothing else has changed |
| `CaService.Service.CreateCert` | src/service.rs:552-617 | likewise for issuing under a new id and a name free in that CA: one whole new row, one more entry, the next serial |
| `CaService.Service.ImportCert` | src/service.rs:641-757 | likewise for an import: one whole new row with the given files and the bundle of them, and no CA row changes, its index included |
| `CaService.Service.RenewCa` | src/service.rs:876-963 | succeeds exactly when openssl does, the CA is active and its lock free; then it has the new certificate and PKCS#12, no truststore and, with CRLs on, the CRL that follows, and every bundle under it is rebuilt from its own row and the new certificate |
| `CaService.Service.CommitIssue` | src/service.rs:571-606 | the committed row holds the certificate issued at the serial that was read, and the commit is the worker's step |
| `IndexText.RevokeSupersededIndexEntries` | src/openssl.rs:1464-1493 | the loop computes the specified rewrite and count |
| `IndexText.RewriteRevokesSubject` | src/openssl.rs:1464-1493 | on text without `\r`, exactly the `V` lines with the revoked line's subject change, in fields 0 and 2 only; none is left; they are counted; all other lines and their order stay |
| `IndexText.RewriteByFields` | src/openssl.rs:1464-1493 | in terms of the tab-separated fields alone: the first `R` line with the serial gives its revocation to exactly the `V` lines with its fields from the sixth on, and their number is counted |
| `IndexText.RewriteIsIdempotent` | src/openssl.rs:1464-1493 | rewriting again changes nothing and counts nothing |
| `IndexText.RewriteRefinesRevokeSuperseded` | src/openssl.rs:1464-1493 | read as entries, the text rewrite is the rewrite the protocol's theorems speak of |
| `IndexText.SameSerialIsSameNumber` | src/openssl.rs:1465-1468 | the serial comparison on hex strings is equality of the numbers |
| `Der.WriteTlv` | src/pkcs12.rs:137-149 | the writer's steps give tag, shortest length and content |
| `Der.ReadTlv` | src/pkcs12.rs:137-149 | a definite-length reader gets tag, content and the following bytes back |
| `Der.ReadIsCanonical` | src/pkcs12.rs:137-149 | whatever a reader that insists on shortest lengths accepts is what the writer writes |
| `Der.TlvIsPrefixFree` | src/pkcs12.rs:155-159 | no encoding is a proper prefix of another |
| `Der.ReadIntegerContent` | src/pkcs12.rs:174-180 | every 32-bit number is written in the fewest octets and reads back |
| `Der.WriteOid` | src/pkcs12.rs:182-195 | the loop that collects base-128 digits low end first writes the arcs high end first |
| `Der.ReadOidExactly` | src/pkcs12.rs:182-195 | an identifier reads back exactly when its first arc is at most 2 and, below 2, its second is below 40 |
| `Der.OidsCollideExactly` | src/pkcs12.rs:182-195 | two identifiers are written alike exactly when their arcs agree from the third on and 40 times the first plus the second is the same number |
| `Der.PaddedOrderIsByteOrder` | src/pkcs12.rs:155-159 | the byte order the writer sorts by is the zero-padded order of section 11.6 of X.690 |
| `Der.SetOfIgnoresOrder` | src/pkcs12.rs:155-159 | a set is written the same whatever order its elements come in |
| `Pkcs12.AddToBlock` | src/pkcs12.rs:110-117 | the carry loop replaces a block by (I_j + B + 1) mod 2^(8v) in place, no partial sum exceeding 511, and leaves the other bytes alone |
| `Pkcs12.Pkcs12Kdf` | src/pkcs12.rs:90-121 | the imperative derivation is appendix B.2 of RFC 7292: the first `len` bytes of A_1, A_2, ... |
| `Pkcs12.KdfIsAppendixB2` | src/pkcs12.rs:90-121 | each byte of the key is the one the words of appendix B.2 name: the last of `iterations` hashes of 64 id bytes and that round's input, which starts as salt and password repeated to whole blocks and moves on block by block |
| `Pkcs12.KdfPrefix` | src/pkcs12.rs:90-121 | a shorter key is the start of a longer one |
| `Pkcs12.ReadUtf16` | src/pkcs12.rs:81-87 | big-endian UTF-16 text reads back, surrogate pairs included |
| `Pkcs12.PasswordIsTerminated` | src/pkcs12.rs:81-87 | the password's octets are those, and the only ones, that read as the password and a terminating zero |
| `Truststore.FindInSet` | src/pkcs12.rs:31-34 | both attributes are found by name whichever way the set sorted them |
| `Truststore.ReadTruststore` | src/pkcs12.rs:29-60 | a reader written with the standards' identifiers gets the certificate, alias, usage, salt, the 2048 iterations and the MACed bytes back, a MAC equal to the one it computes from any octets that read as the password and a terminating zero, and every following byte |
| `Logging.LogIsSuffix` | src/logging.rs:34-183 | whatever files were found, whatever the writes, crashes and restarts: backups oldest first, then the active file, are the end of all bytes found and written; never more backups than configured; the active file within the larger of the rotation size and the longest write, unless it is the file found and nothing has been written |
| `Logging.OnlyOldestIsDropped` | src/logging.rs:146-176 | with backups configured and whatever files were found, the only step that drops anything is the removal of the oldest backup, and it drops exactly that |
| `Logging.RotatesExactlyWhenFull` | src/logging.rs:99-104 | in every run a write sets out to rotate exactly when the active file is not empty and would outgrow the configured size, taken as at least one byte |
| `Logging.StepKeepsInv` | src/logging.rs:117-176 | every file operation, crash and restart keeps the relation between slots, staging file, background thread and program counter |
| `Logging.RotatingState.constructor` | src/logging.rs:34-59 | opening any directory, an over-long log or one left by a crash, resumes the compression of a staging file |
| `Logging.RotatingState.RotateFiles` | src/logging.rs:146-176 | slot by slot: a parked file first becomes backup 1, then every backup moves one number up, the oldest goes, and the active file is parked or becomes backup 1 |
| `Logging.RotatingState.Write` | src/logging.rs:99-112 | a write that fits the configured size is appended and nothing else changes; otherwise the files are rotated slot by slot and the active file holds the write alone; every intermediate disk is a state of the machine's run |
| `EnvTokens.Extract` | src/config.rs:312-337 | the loop computes the specified placeholder text and token list, or the first error |
| `EnvTokens.RestoreTokens` | src/config.rs:348-370 | the loop computes the specified restoration |
| `EnvTokens.ResolveEnvTokensWithUsed` | src/config.rs:439-467 | the loop computes the specified resolution and names |
| `EnvTokens.RestoreWeave` | src/config.rs:339-374 | in any string of literal pieces and placeholders, in any order, every placeholder becomes its token |
| `EnvTokens.TwoStagesAreOne` | src/config.rs:312-374 | lifting out, restoring and resolving gives the same string, the same names and the same error as resolving directly |
| `EnvTokens.ResolveSplicesValues` | src/config.rs:439-467 | literal pieces come out interleaved with the values, which are never scanned again |
| `EnvTokens.ResolvedTextHasPieces` | src/config.rs:439-467 | a text that resolves splits into such pieces and tokens in exactly one way |
| `EnvResolution.TokenIsReplaced` | src/config.rs:414-467 | the first token becomes its variable's value when that is set, else its trimmed and decoded default, else nothing; the text before it stays and the rest is resolved by itself |
| `EnvResolution.TokensAreReplaced` | src/config.rs:439-467 | a text of pieces and tokens becomes the pieces with those values between them, and the names used are the tokens' |
| `EnvResolution.NoTokenStays` | src/config.rs:439-467 | a text without an opening marker stays as it is |
| `EnvResolution.BadNameFails` | src/config.rs:418-437 | a first token whose trimmed name is empty or not of the form `[A-Za-z_][A-Za-z0-9_]*` fails with that error |
| `EnvResolution.UnclosedTokenFails` | src/config.rs:439-467 | a first token that is never closed fails as unterminated |
| `EnvResolution.NothingToRestore` | src/config.rs:348-370 | with no tokens to put back a text stays as it is, things that look like placeholders included |
| `EnvTokens.PercentDecode` | src/config.rs:469-492 | the byte loop decodes every `%HH` and nothing else, and reports a change exactly when there is one |
| `EnvResolution.PercentSays` | src/config.rs:469-492 | byte by byte, a percent sign before two hex digits of either case is an escape and nothing else is |
| `EnvTokens.PercentDecodeBestEffort` | src/config.rs:469-492 | the decoding with its fallback: the text as written when nothing is escaped or the bytes are not UTF-8 |
| `EnvTokens.UnescapeEscaped` | src/config.rs:469-492 | any bytes can be written as escapes and come back |
| `EnvTokens.AnyDefaultCanBeWritten` | src/config.rs:414-437 | any value, closing braces and blanks included, can be written as the default of any name so that the token ends where it should and yields that value |
| `DnText.SplitLoop` | src/service.rs:2143-2165 | the loop with its escape flag computes the specified split |
| `DnText.JoinSplitUnescaped` | src/service.rs:2143-2165 | splitting at one separator and joining again gives the input |
| `DnText.UnescapeLoop` | src/service.rs:2168-2191 | the byte loop computes the specified unescaping |
| `DnText.EscapeLoop` | src/openssl.rs:1363-1372 | the loop computes the specified escaping |
| `DnText.SlashSubjectIsInjective` | src/service.rs:2042-2052 | two attribute lists with `=`-free keys never render to one subject |
| `DnText.ReadRendered` | src/service.rs:2042-2052 | a reader that takes backslashed characters literally gets the attributes back |
| `DnText.SubjectAttributesInvertPrinting` | src/service.rs:2024-2037 | reading a printed name gives its attributes back if and only if no value ends in whitespace, starts with whitespace other than a space, or has a plus sign before a hex digit, unless printed in hex |
| `DnReading.SplitAtSeparator` | src/service.rs:2143-2165 | a text is cut at its first separator that no backslash protects, and the rest is split by itself |
| `DnReading.NameSays` | src/service.rs:2024-2037 | any name's attributes are those of its first piece and then those of the rest |
| `DnReading.PieceSays` | src/service.rs:2024-2037 | a piece is cut at its first unprotected equals sign only, a blank key says nothing, key and value are trimmed and the value unescaped |
| `DnReading.UnescapeSays` | src/service.rs:2168-2191 | a backslash before two hex digits, or a plus sign and one, gives that number's byte; before anything else it goes; at the end it stays |
| `DnReading.EscapeSays` | src/openssl.rs:1363-1372 | a backslash goes before a backslash, a slash, a plus and an equals sign and before nothing else |
| `DnText.PlusBeforeDigitIsLost` | src/service.rs:2168-2191 | the common name `1+1` is not read back |
| `Backup.BackupToSnapshot` | src/service.rs:2267-2423 | the nested loops check and decode every row as specified, or fail |
| `Backup.Store.RestoreBackup` | src/db.rs:954-992 | all rows in one transaction, or the database untouched |
| `Backup.ListRoundTrip` | src/db.rs:2255-2262 | a list column is written back as it was read if and only if its entries are nonempty and trimmed |
| `Backup.SnapshotExists` | src/db.rs:933-949 | every database has a snapshot, and the order of the queries leaves only one |
| `Backup.SnapshotIsUnique` | src/db.rs:933-949 | any two snapshots of one database are equal |
| `Backup.BackupRoundTrip` | src/service.rs:1222-1256 | snapshot, file, validation and restore into an empty database give every row back, truststores apart, if and only if every row is in the normal form the validation leaves alone |
| `Backup.SecondBackupIsFirst` | src/db.rs:933-992 | and then a second snapshot is the first |
| `BackupRestore.RestoreExactly` | src/service.rs:2267-2423 | a file of any origin is restored exactly when every row passes its check and no id or name repeats, and then the database holds exactly the file's rows: roles, scopes and names normalized, text cleaned, secrets decoded, lists joined, zero timestamps replaced |
| `LegacyImport.Importer.ImportCertDir` | src/legacy.rs:174-216 | one certificate directory: skipped, imported or failed, with the counters and lists to match |
| `LegacyImport.Importer.ImportCaDir` | src/legacy.rs:121-172 | one CA directory: skipped, imported or failed, with the label and counter to match, and then its certificates unless the CA or its listing fails |
| `LegacyImport.CaDirsInOrder` | src/legacy.rs:52-63 | the tree's CA directories are done one after the other in order, each skipped, imported or failed and then, if entered and listed, its certificates |
| `LegacyImport.CertDirsInOrder` | src/legacy.rs:174-216 | a CA's certificate directories are done one after the other in listed order, each skipped, imported or failed with the label and counter to match |
| `LegacyImport.Importer.ImportAll` | src/legacy.rs:52-63 | the walk over all completed directories |
| `LegacyImport.ImportCaVerdict` | src/service.rs:351-422 | exactly when a CA import succeeds, and that it adds one row, made from that directory's files |
| `LegacyImport.ImportCertVerdict` | src/service.rs:641-757 | exactly when a certificate import succeeds: an active CA, a free valid id, no live lock, files that openssl accepts, a free name; then one row is added, made from that directory's files, and otherwise none |
| `LegacyImport.CertFailsAgain` | src/service.rs:641-757 | a certificate import that met no live lock, failed or not, fails against every larger database, whatever its locks, and changes no row |
| `LegacyImport.FailedCaFails` | src/service.rs:351-422 | a failed CA import fails against every larger database |
| `LegacyImport.SecondRunIsIdle` | src/legacy.rs:20-63 | for every database and tree without late twins among the names and without a live lock on a directory's CA in the first run, a second run, whatever it draws, changes no row and reports no import |
| `LegacyImport.TwinBreaksIdempotence` | src/legacy.rs:121-172 | for any names with a late twin some tree makes a second run import a certificate |
| `LegacyImport.LockBreaksIdempotence` | src/db.rs:1435-1459 | for any lock row live in the first run and expired in the second, some database and tree make the second run import a certificate |
| `LoginCache.EncodeIsInjective` | src/auth.rs:103-110 | no two lists of parts are encoded alike under their length prefixes |
| `LoginCache.Cache.Insert` | src/auth.rs:123-131 | the new entry lasts five minutes; the others stay unless the cache is full, then the expired ones go, or all of them when that is not enough |
| `LoginCache.Cache.VerifyCached` | src/auth.rs:97-134 | an uncontended call succeeds exactly on an unexpired entry or a check that does, and stores exactly the checked successes |
| `LoginCache.CacheAgreesWithVerify` | src/auth.rs:97-134 | in any interleaving every call returns what the check itself says, an answer from the cache comes within the TTL of a check of the same attempt that succeeded, and the cache holds at most 1024 entries |
| `LoginCache.CtEq` | src/auth.rs:260-266 | the or-of-xors fold is zero exactly for equal byte strings |
| `Templates.OverlapIsSharedForm` | src/models.rs:145-153 | two scopes overlap if and only if some form is covered by both |
| `Templates.Table.SaveTemplate` | src/db.rs:1552-1602 | succeeds exactly for a new id, or on an edit a known one, with a name no other row has; then the whole template is stored, an edit keeping the creation time, exactly the other defaults that share a form are cleared, and nothing else changes |
| `Templates.Table.DeleteTemplate` | src/db.rs:1604-1612 | removes the row or reports that there is none |
| `Templates.LatestDefaultWins` | src/db.rs:1552-1602 | after any run that ends with saving a default, it is the default of every form it covers and the only one |
| `Templates.OneDefaultPerForm` | src/db.rs:1552-1612 | after any run of saves and deletes each form has at most one default |

## Left out

- The external `openssl` command, work directories, timeouts and file permissions: replaced by the contract above.
- The truststore that creating or renewing a CA builds right afterwards: a step of its own, not part of those calls.
- SQL, YAML, JSON and ZIP libraries: tables are maps, a bundle is the tuple of its members.
- SHA-256, HMAC, bcrypt, base64, Unicode case mapping and lossy UTF-8 decoding: any functions, with injectivity or the
  round trip assumed where a statement says so.
- Restored backups in the signing protocol are those taken earlier in the same run, and may be restored as soon as the
  CA and certificate tables are empty; backups edited by hand are covered by the checks in `Backup` only.
- The in-flight check that common names are unique: it is made before the lock, so it is not claimed for interleaved runs.
- The check that a renewal extends the expiry: it reads the row before the lock.
- Bundles' signing requests: a renewal rebuilds the request for the bundle and does not store it in the row.
- Failed renames and failed compression in log rotation, and the saturation of its 64-bit counters.
- Files in the log directory under names the configuration does not use (a higher number, the other suffix, a staging
  file without compression): the code never touches them.
- The YAML parse between lifting tokens out and resolving: `RestoreWeave` covers the strings it can produce from intact
  placeholders.
- A configuration text that contains the random placeholder prefix.
- Token parsing takes the decoding of a default as a parameter; the two-stage theorems hold for every such function.
- LegacyImport.ImportCert: what openssl says about the files is a function of the files and the CA's stored secrets, so certificates
  that become valid or expire between two runs of the legacy import are not captured; nobody else writes while it runs.
- BackupRoundTrip: error texts and the metadata repair that runs after a restore are not modelled.
- HTTP, HTML, sessions, header authentication, translations, the Go command line, schema migration: plumbing.
