# xrplbak, verified

xrplbak backs up a rippled validator's config. It splits the config into a part that may be public and a
part that may not, encrypts both, writes the first to the XRP Ledger in memos and the second to a bundle
file, and later finds them again and rebuilds the original bytes. This project models that machinery in
Dafny and proves what it is for.

| files | what they model |
|---|---|
| `Gf256`, `Polynomial`, `Shamir`, `Secrecy`, `KeyShares` | the recovery key as Shamir shares over GF(2^8) |
| `LedgerModel`, `LedgerClient`, `BackupSteps`, `BatchLayout`, `FeeCeiling`, `RunLog`, `Submission` | the submit protocol on an append-only ledger, sequential and batched (XLS-56), with crashes, retries and resumed runs |
| `ConfigText`, `Redact`, `RoundTrip`, `OnChainReading`, `Publication`, `RippledReading`, `RedactionReport`, `Restore`, `Canonical`, `RippledCanonical` | parsing, splitting, merging and restoring config text byte for byte, what becomes public of it, and what rippled reads |
| `Discovery`, `SearchReach`, `Rejections`, `Sorting`, `Judgement`, `Verdicts`, `JunkHistory`, `JunkAnywhere`, `NextNumber` | finding and choosing a backup in a history that may hold junk |
| `Wire`, `TxFormat`, `TxRoundTrip`, `CanonicalOrder`, `TxCodec`, `TxReader` | the XRPL transaction codec |
| `BundleStream`, `Base58`, `Ripemd160`, `Container`, `Pipeline` | the bundle stream, base58, the streaming digest, the archive, and the path from archive to memos and back |
| `EndToEnd`, `Acceptance`, `LedgerSearch`, `FullCircle` | from the operator's files to memos and a bundle file, through the ledger and the search, and back to the files; what is accepted on the way back |
| `Attestation` | the judgement over a history of delegated attestations |

Code that works step by step is a method, or a class with methods, proved against a specification function;
what the source promises is then proved of those functions.

## Assumptions

- Hashes are injective. In the protocol a transaction's hash is the transaction itself, and a backup id
  commits to the epoch, the number and the sealed contents.
- The AEAD opens what was sealed; where a lemma needs it, it opens nothing else. Signature checks, MACs, the
  compression of a digest block, deflate, and the secret, address and host scanners are parameters, and the
  theorems hold for any of them.
- There is one append-only ledger, and the writer's sequence and last ledger decide what can still apply. A
  submitted transaction may apply later or never, whatever its submission returned. Others who hold the
  writer key may write junk and repeat public memos, but cannot seal a manifest.
- A dump holds what the tool sent. It may lag the ledger, come from another network, or be lost; nothing in it
  counts before the ledger confirms it.
- A crash is an error return from any ledger call: what the process held is gone, and the ledger is as the
  last call left it. Each call keeps the ledger safe, and an append-only ledger that is safe was safe before.
- Every chunk of a backup is sealed under its own nonce, so no two of them have one ciphertext
  (`DistinctChunks`). A sealing run draws one nonce and gives all its parts one total (`OneTotal`).
- Where the ledger meets the search, a `View` says how ids, nonces, parts and keys read as text; the theorems
  hold for every view that is `Faithful`, and `LedgerSearch.FaithfulViewExists` gives one for whatever was sealed.
- Random choices (coefficients, coordinates) are arbitrary inputs.
- Text is a string of bytes. Integers are unbounded except where the width shows: bytes, field widths,
  length prefixes, the 32-bit epochs, ledger numbers and frame counter, the 64-bit digest count.

## Where code and comments differ

The model follows the code.

- `internal/xrpl/codec/codec.go:243-256`: the XRPL format stops at blobs of 918744 bytes. The code accepts any
  length, and its first prefix byte wraps only above 995520 bytes; `Wire.VLRoundTrip` gives that exact bound.
- `internal/xrpl/codec/decode.go:17-19`: the check for trailing bytes cannot fire, because the top-level
  object reads to the end of the input.
- `internal/backup/batch.go:166-174`: a lone manifest part in a group of its own cannot occur, since every
  group has 2 to 8 transactions; nor can the errors at `internal/backup/batch.go:217`,
  `internal/backup/batch.go:271-274`, `internal/backup/batch.go:372-374` and `internal/backup/batch.go:393-395`.
- `internal/xrpl/sign/ripemd160/ripemd160.go:112-114`: the panic cannot be reached.

## Model

| member | source | states |
|---|---|---|
| Gf256.MultLoop | internal/crypto/shamir/shamir.go:116-126 | the shift-and-reduce loop is the field product, on all pairs of bytes |
| Gf256.MulIsRemainder | internal/crypto/shamir/shamir.go:115-126 | the product is the remainder of the carry-less product modulo x^8+x^4+x^3+x+1, section 4.2 of FIPS 197, with the quotient given |
| Gf256.MulCommutes | internal/crypto/shamir/shamir.go:116-126 | multiplication commutes |
| Gf256.MulAssociates | internal/crypto/shamir/shamir.go:116-126 | multiplication associates |
| Gf256.MulLinearLeft | internal/crypto/shamir/shamir.go:116-132 | multiplication distributes over addition |
| Gf256.InverseChain | internal/crypto/shamir/shamir.go:100-113 | the addition chain computes the 254th power |
| Gf256.FrobeniusIsIdentity | internal/crypto/shamir/shamir.go:99-113 | squaring eight times is the identity, which is what makes the 254th power an inverse |
| Gf256.InverseLaw | internal/crypto/shamir/shamir.go:100-113 | every non-zero element times its inverse is 1 |
| Gf256.NoZeroDivisors | internal/crypto/shamir/shamir.go:64-126 | a product is 0 only when a factor is |
| Polynomial.TooManyRoots | internal/crypto/shamir/shamir.go:64-82 | a polynomial with as many roots as coefficients is zero |
| Polynomial.AgreementIsEquality | internal/crypto/shamir/shamir.go:64-82 | polynomials that agree on enough distinct points are equal |
| Polynomial.InterpolationFits | internal/crypto/shamir/shamir.go:64-82 | the interpolating polynomial passes through every sample |
| Polynomial.InterpolationRecovers | internal/crypto/shamir/shamir.go:64-82 | interpolation at any x gives the value of every polynomial of low enough degree through the samples |
| Shamir.Div | internal/crypto/shamir/shamir.go:85-97 | division multiplies by the inverse; its callers never pass 0 |
| Shamir.Evaluate | internal/crypto/shamir/shamir.go:46-60 | Horner's loop and its shortcut at 0 give the polynomial's value |
| Shamir.Interpolate | internal/crypto/shamir/shamir.go:64-82 | both loops give the Lagrange sum, and never divide by 0 on distinct x |
| Shamir.Split | internal/crypto/shamir/shamir.go:139-192 | the refusals in order; otherwise part i is every byte's polynomial at coordinate i, with the coordinate behind it |
| Shamir.WriteColumn | internal/crypto/shamir/shamir.go:174-188 | one byte's column is filled in every part and nothing else changes |
| Shamir.Combine | internal/crypto/shamir/shamir.go:196-246 | the refusals in order; otherwise each byte is the interpolation of its column at 0 |
| Shamir.CombineInvertsSplit | internal/crypto/shamir/shamir.go:139-246 | every selection of at least threshold distinct shares, in any order, combines to exactly the secret, for every choice of coefficients and coordinates |
| Secrecy.EveryByteFitsOnce | internal/crypto/shamir/shamir.go:28-60 | given threshold-1 samples, each candidate byte is matched by exactly one draw of coefficients |
| Secrecy.OneShareShort | internal/crypto/shamir/shamir.go:28-60 | threshold-1 shares are explained by every secret of the same length, by exactly one choice of coefficients |
| Secrecy.FewerSharesFixNothing | internal/crypto/shamir/shamir.go:174-188 | any number of shares below the threshold is explained by every secret of the same length, by as many choices of coefficients as by the real one |
| KeyShares.SplitKey | internal/crypto/shares.go:26-43 | bounds 2 <= t <= n <= 16, and what each share carries |
| KeyShares.CombineKey | internal/crypto/shares.go:46-78 | the checks on threshold and split id in order, then the combination |
| KeyShares.KeyRecoveredExactly | internal/crypto/shares.go:26-78 | a selection of one split's shares gives the key exactly when it holds enough different ones |
| KeyShares.AcceptedExactly | internal/crypto/shares.go:46-78 | shares are accepted exactly when there are enough, of one threshold and split id, at different coordinates; nothing else tells two splits apart |
| KeyShares.FirstMisfitIsNamed | internal/crypto/shares.go:52-63 | the error names the first share that cannot be read or is of another split, counted from 1, and says which |
| KeyShares.MixedSplitsRefused | internal/crypto/shares.go:59-63 | shares whose threshold or split id differs never combine to a key |
| LedgerClient.Ledger.Apply | internal/xrpl/fake/fake.go:91-170 | a transaction is recorded once; a Batch's inner transactions are recorded all or not at all, in one ledger |
| LedgerClient.Ledger.Step | internal/xrpl/fake/fake.go:52-170 | every ledger step, junk and replays by a holder of the writer key included, keeps the ledger safe and append-only |
| LedgerClient.Ledger.Submit | internal/xrpl/fake/fake.go:52-83 | success is answered only for the account's sequence and a batch that rippled takes, a sequence code only for another sequence; the transaction may be applied later, or never, whatever the answer was |
| LedgerClient.Ledger.Seal | internal/backup/backup.go:309-318 | every sealing run draws its own nonce prefix |
| LedgerModel.AnchorNamesCompleteBackup | internal/backup/backup.go:397-508 | on a safe ledger an anchor names part 0 of a manifest of its backup, epoch and number, whose parts and named chunks are all ahead of it |
| LedgerModel.SafeAtEveryMoment | internal/backup/backup.go:397-399 | safety of a ledger is safety of every earlier state of it |
| LedgerModel.SafeBatch | internal/backup/batch.go:20-45 | a batch that is safe in order keeps the ledger safe when it applies whole |
| BackupSteps.ReusedManifest | internal/backup/backup.go:470-478 | confirmed parts that are as many as part 0 says are all the parts of one sealed manifest, whose chunks have landed |
| BackupSteps.RefusedChunksHaveLanded | internal/backup/batch.go:69-76 | when the batched path refuses a complete manifest for a missing chunk, that chunk is on the ledger all the same; so the sequential path is safe without the check |
| BackupSteps.TailInOrder | internal/backup/batch.go:150-213 | manifest parts with the anchor behind the last one are safe in a batch, part 0 in it or landed |
| BackupSteps.InOrderIsBatchSafe | internal/backup/batch.go:20-45 | a batch is safe when each inner transaction is safe once those before it have landed |
| BackupSteps.DraftHasRealPartCount | internal/backup/batch.go:79-90 | the draft sealed with placeholder hashes has the real part count of the single batch |
| BackupSteps.DraftIsLeast | internal/backup/batch.go:79-90 | outside the single batch the manifest has at least as many parts as the draft |
| FeeCeiling.ProjectionIsCeiling | internal/backup/backup.go:283-304 | whatever hashes and ledgers are filled in, the manifest has at most the projected number of parts |
| FeeCeiling.RunIsWithinPlan | internal/backup/batch.go:301-328 | a run's base fees are at most those of the plan, whatever a resumed run found done |
| FeeCeiling.FeesWithinPlan | internal/backup/batch.go:301-328 | the fees of the transactions a run saw land are at most the cap for each base fee of the plan |
| Submission.MakePlan | internal/backup/backup.go:229-236 | a plan is refused exactly when it is projected above 16 parts, so that no run fails for too many parts |
| Submission.Submitter.NameRecorded | internal/backup/batch.go:56-65 | chunks confirmed on the ledger are named by their own transactions, and exactly the others are pending |
| Submission.Submitter.OnLedger | internal/backup/backup.go:386-395 | yes exactly when the ledger answers that the transaction landed and succeeded, no exactly when it answers not found or failed, an error exactly when it does not answer; a yes means that it has landed |
| Submission.Submitter.Send | internal/backup/backup.go:544-614 | success means that the body has landed at no more than the fee cap, in a transaction drawn from what the server and the account said: the next sequence, twenty ledgers, the higher fee; it gives up as not validated after exactly three submissions; whenever it fails an answer of the ledger is to blame |
| Submission.Submitter.Await | internal/backup/backup.go:592-612 | a transaction that succeeded is recorded and paid for; an attempt is given up only when the server is past its last ledger or after exactly 45 lookups |
| Submission.Submitter.Charge | internal/backup/batch.go:380-391 | one payment of the higher fee for each unit, refused exactly above the cap for each unit or below the reserve |
| Submission.Submitter.ManifestMemos | internal/backup/backup.go:309-337 | a manifest is sealed under a fresh nonce unless it needs more than 16 parts |
| Submission.Submitter.AssignInner | internal/backup/batch.go:260-267 | inner transactions get the sequences after the outer one |
| Submission.Submitter.TailItems | internal/backup/batch.go:222-256 | the parts asked for and, behind the last part, the anchor naming part 0 |
| Submission.Submitter.BuildWhole | internal/backup/batch.go:92-123 | the whole backup as one batch: 2 to 8 inner transactions, safe in order, ending with the anchor |
| Submission.Submitter.ReadInner | internal/backup/batch.go:427-440 | success means that every inner transaction has landed |
| Submission.Submitter.SendBatch | internal/backup/batch.go:355-458 | each attempt is built anew and drawn from the state of server and account; the size and sequence checks never fire; success means that the batch has landed whole; whenever it fails an answer is to blame |
| Submission.Submitter.ReadDump | internal/backup/backup.go:405-452 | every entry of the backup is looked up in turn; what is kept is exactly what the ledger said has landed, the later entry first; an entry that gets no answer ends the run |
| RunLog.EntryRead | internal/backup/backup.go:411-449 | one more entry read: kept exactly when the ledger said yes, a later one of the same chunk or part in place of the earlier |
| RunLog.EntryUnknown | internal/backup/backup.go:426-429 | an entry that gets no answer leaves the reading incomplete |
| RunLog.MissingIsUnconfirmed | internal/backup/backup.go:455-468 | a chunk is missing from what was read exactly when no confirmed entry carries it |
| RunLog.ReusedExactly | internal/backup/backup.go:470-478 | a manifest is used again exactly when every part of one, as many as its part 0 says, was confirmed |
| Submission.Submitter.FindComplete | internal/backup/backup.go:470-478 | a complete manifest is found if there is one |
| Submission.Submitter.SendAnchor | internal/backup/batch.go:285-299 | success means that the anchor of the plan's backup has landed, naming part 0, its ledger, epoch and number, and that the dump holds it |
| Submission.Submitter.FinishBatched | internal/backup/batch.go:270-281 | the last inner transaction is the anchor, so its type check never fires; the dump keeps the DID entry as the ledger holds it |
| Submission.Submitter.MakeDraft | internal/backup/batch.go:79-86 | pending chunks become placeholders, the others stay |
| Submission.Submitter.SendChunks | internal/backup/batch.go:125-147 | success means that every chunk is named by a landed transaction that carries it |
| Submission.Submitter.SendTail | internal/backup/batch.go:149-217 | no group is a lone part and the last one returns; success means that the anchor has landed behind every part |
| Submission.Submitter.SubmitBatched | internal/backup/batch.go:53-218 | the batched path keeps the ledger safe at every call; success means that the anchor has landed, and that what was paid for is the layout that BaseFees counts |
| Submission.Submitter.Submit | internal/backup/backup.go:400-508 | whatever the dump says and the ledger does, the ledger stays safe; success means that an anchor of the backup has landed, that exactly the chunks no confirmed entry of the dump carries were sent, that the manifest was used again exactly when every part of one was confirmed, and that the transactions paid for are that layout, with fees within the ceiling that the plan report gave; an error has an answer of the ledger to blame, or is the refusal of a dump that holds a whole manifest and not its chunks |
| Submission.Runs | internal/backup/backup.go:397-508 | after any number of runs, cut short anywhere and resumed from any dump the tool wrote, every anchor on the ledger has its complete backup behind it |
| BatchLayout.SplitBatches | internal/backup/batch.go:334-348 | the loop gives the even split |
| BatchLayout.SplitIsBest | internal/backup/batch.go:330-348 | sizes are 2 to 8, never fall, add up, and no cut into fewer batches exists |
| BatchLayout.SplitPosition | internal/backup/batch.go:156-162 | only the last group reaches the end, and at least two transactions are left for it |
| BatchLayout.BaseFees | internal/backup/batch.go:301-328 | the count is what the layout pays; Submission.Submitter.Submit shows that layout to be what is sent |
| BatchLayout.FeesNeverFall | internal/backup/batch.go:301-328 | more chunks or more manifest parts never cost less |
| ConfigText.SplitLines | internal/cfg/cfg.go:122-145 | the lines are the text cut at LF, CRLF and lone CR |
| ConfigText.CutIsExact | internal/cfg/cfg.go:119-145 | joining the cut lines gives the text, and the cut is well formed |
| ConfigText.CutOfJoined | internal/cfg/cfg.go:122-145 | cutting well formed lines that were joined gives them back |
| ConfigText.InlineComment | internal/cfg/cfg.go:35-46 | the position of the first unescaped hash sign |
| RoundTrip.CommentShape | internal/cfg/cfg.go:176-189 | a line with an inline comment is its value, spaces and the comment, and no earlier hash sign starts one |
| ConfigText.Parse | internal/cfg/cfg.go:149-202 | the lines as classified and the stanzas as gathered, repeated names merged |
| ConfigText.Render | internal/cfg/cfg.go:110-117 | raw lines and terminators, joined |
| ConfigText.RenderInvertsParse | internal/cfg/cfg.go:107-117 | rendering a parsed text gives it back byte for byte |
| Canonical.Canonical | internal/cfg/cfg.go:217-242 | the shown sections, sorted by name, one blank line between them |
| Canonical.SectionsInOrder | internal/cfg/cfg.go:217-225 | every stanza but a nameless one without lines, once each, in the byte order of the names |
| Canonical.ParsedCanonical | internal/cfg/cfg.go:214-242 | parsing canonical text gathers the sections it was written from |
| Canonical.CanonicalIsAFixedPoint | internal/cfg/cfg.go:214-242 | parsing canonical text and rendering it again changes nothing, for every text |
| RippledReading.RippledLinesAreCut | internal/cfg/cfg.go:119-145 | rippled's two replacements and its split give the parser's lines |
| RippledReading.SettingIsKept | internal/cfg/rippled_model_test.go:42-65 | rippled reads a setting with an inline comment as the unescaped setting |
| RippledReading.ReadingIsByLine | internal/cfg/rippled_model_test.go:69-101 | rippled and the parser put every value in the same section, in the same order |
| RippledReading.RippledReadsOnChain | internal/redact/redact.go:193-252 | rippled's reading of the on-chain text is its reading of the original minus the lines moved whole |
| RippledReading.KeptReadingIsReading | internal/redact/redact.go:193-252 | when no line is moved whole, rippled reads both texts alike |
| RippledCanonical.RemoveNothing | internal/cfg/rippled_model_test.go:42-65 | a value without a comment only loses its escapes |
| RippledCanonical.RippledReadsCanonical | internal/cfg/rippled_model_test.go:103-134 | for every section rippled holds the same values in the same order from the canonical form, for every text |
| Redact.Refuse | internal/redact/redact.go:258-280 | the first refused stanza, then the first refused line |
| Redact.RecordMove | internal/redact/redact.go:196-211 | the report entry of the line's stanza is counted up |
| Redact.Split | internal/redact/redact.go:181-253 | both halves, the report and the role, or the refusal; `Publication.OnlyTheAllowedIsPublic` says which lines stay |
| Publication.OnlyTheAllowedIsPublic | internal/redact/redact.go:221-255 | read again, the on-chain half shows no setting but of a stanza on the allowlist, of a port, or of ips_fixed when the operator says so, never one outside a stanza or of validator_token, validator_key_revocation, cluster_nodes, rpc_startup, ssl_cert or peer_private, and none the scanner did not pass; no comment unless the operator says so and the scanner passed it; and every line that may stay does |
| Publication.StaysExactly | internal/redact/redact.go:282-305 | a setting stays exactly when its stanza may be public and the scanner passes it |
| Publication.RefusedExactly | internal/redact/redact.go:260-280 | a file is refused exactly when it names a stanza of node secrets, or a line of it, comments included, looks like a seed outside the two blob stanzas, looks like a private key, or holds a restore marker |
| Publication.RefusalNamesTheFirst | internal/redact/redact.go:260-280 | the refusal names the first stanza of node secrets or, when there is none, the first line at fault, its number and its fault |
| Redact.Merge | internal/redact/redact.go:314-351 | each marker takes the next bundle line and the leftover is appended |
| Redact.MergedExactly | internal/redact/redact.go:314-351 | each marker is the next moved line with the marker's own line end as long as there is one, every other line stays, and the moved lines that no marker takes follow in order; none is lost |
| RoundTrip.SplitThenMerge | internal/redact/redact.go:181-358 | splitting, rendering, parsing and merging is the identity on every text that is not refused, for every option and whatever the scanners decide |
| RoundTrip.NothingMovedNeedsNoBundle | internal/redact/redact.go:309-351 | a file that loses no line needs no bundle |
| RoundTrip.BareMergeIsIdentity | internal/restore/restore.go:101-104 | without its bundle an on-chain text is restored as it is |
| RoundTrip.CommentMarkerRead | internal/redact/redact.go:193-205 | a setting left with the comment marker is read as the same setting |
| OnChainReading.OnChainReadsAs | internal/redact/redact.go:193-252 | re-parsing the on-chain text gives every line its old stanza, kept lines as they were, and every stripped setting its value |
| OnChainReading.OnChainIsClean | internal/redact/redact.go:193-252 | in the re-parsed on-chain text no unmarked line would be moved |
| OnChainReading.OnChainHeaders | internal/redact/redact.go:193-252 | the headers of the on-chain text are those of the original |
| RedactionReport.ReportIsExact | internal/redact/redact.go:196-211 | one entry per stanza, with the exact counts of moved lines and moved comments |
| RedactionReport.ReasonIsTheLast | internal/redact/redact.go:211 | each entry gives the reason of the last line that its stanza lost |
| RedactionReport.CommentOnlyMeansEverySettingIsPresent | internal/restore/restore.go:146-162 | an entry counts nothing but comments exactly when no setting of the stanza was moved |
| Restore.CheckListed | internal/restore/restore.go:71-80 | accepted exactly when every listed path is clean and listed once |
| Restore.MergeEntries | internal/restore/restore.go:89-113 | both maps give each carried path its merged, bare or bundle content |
| Restore.Build | internal/restore/restore.go:70-140 | refuses exactly the lists it should; each file's proof says whether its bytes have the listed hash; what was not carried is left to do |
| Restore.AddSplit | internal/backup/backup.go:93-121 | a config file's two entries, the second only when a line moved |
| Restore.Store | internal/backup/backup.go:80-147 | both containers and the listing, or a refusal: a config that does not split, an included file with key material |
| Restore.RestoredIsOriginal | internal/restore/restore.go:59-113 | both halves give every stored file its original bytes and mode |
| Restore.RestoredWithoutBundle | internal/restore/restore.go:101-107 | without the bundle a config file is its on-chain text and an included file is absent |
| Restore.StoreThenRestore | internal/restore/restore.go:59-140 | every stored file comes back byte for byte, proven complete, with nothing left to do |
| Container.Encode | internal/container/container.go:38-61 | duplicate and path-length refusals, otherwise the entries in path order |
| Container.Decode | internal/container/container.go:64-111 | every truncation, hash mismatch and trailing byte is refused |
| Container.RepeatIsFound | internal/container/container.go:41-45 | comparing neighbours after sorting finds a repeated path in whatever order the entries come |
| Container.OrderDoesNotMatter | internal/container/container.go:11-13 | the result depends only on which entries there are |
| Container.DecodeInvertsEncode | internal/container/container.go:38-111 | Decode gives back the entries in path order with the mode masked to 12 bits |
| Container.DecodedExactly | internal/container/container.go:64-111 | what Decode accepts is exactly the layout of the entries that it gives, byte for byte: every content has its recorded hash, nothing is cut short, nothing is left over |
| Container.EncodesExactly | internal/container/container.go:39-51 | refused exactly are a repeated path and a path that is empty or longer than 65535 bytes |
| Container.WrittenInOrder | internal/container/container.go:39-45 | the entries are in byte order of their paths: the first difference decides, and a prefix comes first |
| Pipeline.Pack | internal/container/container.go:113-134 | compressed bytes, zeros and the pad length |
| Pipeline.UnpackInvertsPack | internal/container/container.go:113-151 | Unpack gives back every archive, whatever its compressed length |
| Pipeline.Split | internal/chunk/chunk.go:104-114 | the 960-byte blocks, or a refusal of unaligned data |
| Pipeline.Encode | internal/chunk/chunk.go:54-73 | the memo of a piece; refused exactly for a bad id, a bad nonce or a Memos array above 1024 bytes |
| Pipeline.MemoBack | internal/chunk/chunk.go:54-101 | a memo is decoded to the payload it was built from |
| Pipeline.MemoFits | internal/chunk/chunk.go:1-12 | the memo fits exactly when ciphertext and nonce are at most 982 bytes together |
| Pipeline.EveryChunkFits | internal/chunk/chunk.go:1-12 | a sealed block always fits |
| Pipeline.Assemble | internal/discover/discover.go:447-483 | every chunk in turn, each checked against the manifest's hash and opened; any missing or altered one ends it |
| Pipeline.FetchInvertsStore | internal/discover/discover.go:447-489 | packing, cutting, sealing, finding, opening, joining and unpacking is the identity |
| Acceptance.MemoExactly | internal/chunk/chunk.go:75-101 | a memo is taken for a part of a backup exactly when type, version, lengths and index fit, and then says what its bytes say |
| Acceptance.UnpackedExactly | internal/container/container.go:136-151 | what Unpack accepts: whole blocks of compressed bytes, any filling, and its length |
| Acceptance.AssembledExactly | internal/discover/discover.go:447-483 | the chunks are assembled exactly when each transaction is found, carries its chunk, and every memo of it that claims to be that chunk has the manifest's hash and opens |
| Discovery.OpenManifest | internal/discover/discover.go:376-414 | the first epoch under which, at every index, some ciphertext opens and the manifest is the set's own |
| Discovery.Probes | internal/discover/discover.go:416-432 | the two loops list the hint, then earlier, then later epochs |
| Discovery.ProbesCover | internal/discover/discover.go:416-432 | the listed epochs are exactly those from floor-63 to 64 above the hint, within 0 and 2^32-1 |
| Discovery.ScanHistory | internal/discover/discover.go:147-178 | parts grouped by id and nonce, every ciphertext kept |
| Discovery.SearchUp | internal/discover/discover.go:191-229 | the upward loop terminates and gives the search's result |
| Discovery.FindCandidates | internal/discover/discover.go:147-229 | the scan, the first pass and the upward search together, with the sets that stay closed |
| Rejections.CountRejected | internal/discover/discover.go:230-241 | the counts of rejected manifests and of those that may have landed behind the selected backup |
| Rejections.LastLedger | internal/discover/discover.go:341-353 | the newest ledger of any part of a set |
| Rejections.NothingInSilence | internal/discover/discover.go:314-323 | when nothing is reported rejected, every complete set gave a candidate; none is reported behind the newest backup exactly when every closed set had landed by then |
| Rejections.ReportCounts | internal/discover/discover.go:230-241 | the report counts every manifest that was too large or stayed closed, and of the closed ones those of which a part landed behind the selected backup or nobody can tell, each once |
| SearchReach.SearchReaches | internal/discover/discover.go:179-229 | a complete manifest still closed opens at no epoch from floor-63 up to 64 above the newest of the hint and the epochs found |
| SearchReach.SearchFinds | internal/discover/discover.go:179-229 | no complete set is lost: it gave a candidate or is reported as closed |
| SearchReach.SearchIsAuthentic | internal/discover/discover.go:376-414 | every candidate comes from a set whose parts all opened under one epoch's key |
| SearchReach.RotationsAreFollowed | internal/discover/discover.go:104-109 | a chain of rotations with gaps of at most 64 is followed to any height |
| JunkHistory.AddJunk | internal/discover/discover.go:147-150 | one memo that no key opens changes no set's opening, under a real id, nonce and index too |
| JunkHistory.JunkChangesNoCandidate | internal/discover/discover.go:152-229 | appended junk leaves the candidates and their order as they were |
| JunkHistory.JunkChangesNoVerdict | internal/discover/discover.go:152-328 | nor does it change the newest backup, the conflict, or the trust in the anchor |
| JunkAnywhere.AtAnywhere | internal/discover/discover.go:164-181 | with junk put in anywhere a key opens what it opened before if its first memo gives the same total, and nothing otherwise |
| JunkAnywhere.JunkAnywhere | internal/discover/discover.go:152-229 | every backup that was found is found again exactly when no memo with another total comes ahead of its first; then the candidates are the same |
| JunkAnywhere.SameVerdict | internal/discover/discover.go:242-303 | the verdict hangs only on which candidates were found, not on their order |
| JunkAnywhere.JunkAnywhereChangesNoVerdict | internal/discover/discover.go:152-328 | unless it forestalls a backup that was found, junk put in anywhere changes neither the newest backup, the conflict, nor the trust in the anchor |
| Sorting.SortIsStable | internal/discover/discover.go:242-248 | for any order, elements that tie keep the order they came in |
| Sorting.SortOrders | internal/discover/discover.go:242-248 | for any order, the sort loses and adds nothing and leaves no element before one that precedes it |
| Sorting.BeforeExactly | internal/cfg/cfg.go:217-225 | the order of strings: the first difference decides, and a prefix comes first |
| Judgement.Dedupe | internal/discover/discover.go:249-261 | the backward loop keeps the last entry of each id |
| Judgement.UniqIsSorted | internal/discover/discover.go:242-261 | one entry per backup id, still sorted, each the oldest of its id, and no id lost |
| Judgement.KeptIsTheFirst | internal/discover/discover.go:242-261 | the candidates stand newest first, and of one backup that was found several times the earliest finding is kept: lowest epoch and number, then first ledger |
| Judgement.Judge | internal/discover/discover.go:242-303 | anchor agreement, conflict, newest and missing flags |
| Judgement.LatestIsNewest | internal/discover/discover.go:280-303 | the newest has a higher epoch than every other candidate, or the same epoch and a higher number; there is one unless nothing was found or two backups tie |
| Judgement.ConflictIsATie | internal/discover/discover.go:280-290 | a conflict is exactly two backups of one epoch and number that nothing exceeds |
| Judgement.AnchorTrust | internal/discover/discover.go:262-279 | the anchor is distrusted exactly when the manifest it names has another epoch or number |
| Judgement.MissingExactly | internal/discover/discover.go:291-303 | the anchored backup is reported out of reach exactly when the newest found is another one of no higher epoch, or of the same epoch and no higher number |
| Judgement.Choose | cmd/xrplbak/cmd_restore.go:46-73 | without an id the newest unless there is a conflict or the anchored backup is out of reach; with one, the only candidate whose id starts with it |
| Judgement.Run | internal/discover/discover.go:113-328 | discovery fails exactly when a read fails, and otherwise gives the verdict of the search and the counts of what stayed closed; `Verdicts` says what that verdict means |
| Verdicts.ForgedAnchorIsIgnored | internal/discover/discover.go:121-134 | an anchor whose MAC does not verify, or whose epoch's key is not known, leaves verdict and report as they are without an anchor, for all keys, hints and histories |
| Verdicts.VerifiedAnchorIsUsed | internal/discover/discover.go:115-134 | a verified anchor is trusted unless a manifest of its backup was found with another epoch or number; a complete set still closed opens at no epoch from 63 below the hint to 64 above the higher of hint and anchor |
| Verdicts.VerdictHoldsAll | internal/discover/discover.go:178-261 | every backup of the verdict opened whole under one epoch's key, each id is listed once, and every complete set gave one or stayed closed |
| Verdicts.OpensExactly | internal/discover/discover.go:376-414 | what a set gives at an epoch: the manifest joined from the first ciphertext of each index that opens under that epoch's known key, if it names the set's backup and that epoch |
| NextNumber.NextSeq | internal/backup/backup.go:616-646 | the next number is one above the highest among the backups of the key file's epoch that authenticate, and is refused exactly when that is the last number |
| Wire.HeaderRoundTrip | internal/xrpl/codec/decode.go:159-180 | a field header is read back, whatever follows it, exactly when neither code is 0 |
| Wire.AppendVL | internal/xrpl/codec/codec.go:243-256 | the three length-prefix ranges |
| Wire.VLRoundTrip | internal/xrpl/codec/codec.go:243-256 | a blob is read back exactly when it is at most 995520 bytes long |
| TxCodec.SerializeMemos | internal/xrpl/codec/codec.go:189-213 | the Memos array, refused above 1024 bytes; `CanonicalOrder.WrittenInOrder` says what is in it |
| TxCodec.Serialize | internal/xrpl/codec/codec.go:68-151 | the bytes of the format, or the first reason to refuse; `CanonicalOrder` says what the bytes carry, in which order, and what is refused |
| TxCodec.SerializeInner | internal/xrpl/codec/codec.go:156-175 | the RawTransactions array, or the first inner refusal |
| CanonicalOrder.WrittenInOrder | internal/xrpl/codec/codec.go:4-5 | taken apart by a reader that knows headers and lengths alone, the bytes are the transaction's entries, each member under its type and field code and big-endian, strictly ascending by type code and then field code in the transaction, in each memo and in each inner transaction |
| CanonicalOrder.WrittenExactly | internal/xrpl/codec/codec.go:85-175 | refused exactly are the transactions that do not fit: fee, key, signature, account, data, memos and inner transactions |
| TxReader.Reader.Header | internal/xrpl/codec/decode.go:159-180 | reads what the format says and moves the cursor behind it |
| TxReader.Reader.Vl | internal/xrpl/codec/decode.go:190-212 | reads what the format says and moves the cursor behind it |
| TxReader.Reader.Memos | internal/xrpl/codec/decode.go:214-253 | reads what the format says and moves the cursor behind it |
| TxReader.Reader.Object | internal/xrpl/codec/decode.go:26-114 | one transaction's fields, to the end of the input or to the object end marker |
| TxReader.Reader.RawTransactions | internal/xrpl/codec/decode.go:118-141 | inner objects to the array end marker |
| TxReader.Deserialize | internal/xrpl/codec/decode.go:11-21 | the transaction or a refusal; bytes can never be left over |
| TxRoundTrip.WhatIsWrittenIsRead | internal/xrpl/codec/decode.go:8-21 | Deserialize reads back everything that Serialize wrote, nested inner transactions included |
| TxRoundTrip.DeserializeInvertsSerialize | internal/xrpl/codec/codec.go:68-175 | Deserialize inverts Serialize exactly on transactions that carry nothing Serialize leaves out and no blob above 995520 bytes |
| TxRoundTrip.SerializeIsInjective | internal/xrpl/codec/codec.go:68-175 | two transactions with the same bytes are the same in everything that is written |
| BundleStream.SealBundle | internal/crypto/aead.go:124-150 | magic, id and one sealed frame per 64 KiB, the last one marked |
| BundleStream.SealedIsStream | internal/crypto/aead.go:114-150 | the bytes of a sealed bundle: magic, id, and the fewest frames of 64 KiB, each behind its length and sealed under its index, seven zero bytes and the mark of the last |
| BundleStream.OpenBundle | internal/crypto/aead.go:161-202 | the frame loop, with every refusal |
| BundleStream.OnlyTheSealedStreamOpens | internal/crypto/aead.go:114-202 | against an AEAD that opens this bundle's frames and nothing else, a stream is accepted exactly when it is the sealed one, and then gives the plaintext |
| BundleStream.IdealExists | internal/crypto/aead.go:114-123 | every bundle has such an AEAD |
| BundleStream.NoncesRepeatPastTheCounter | internal/crypto/aead.go:45-49 | past 2^32 frames two frames share a nonce, which is why the frame count is bounded there |
| Attestation.Evaluate | internal/pubattest/delegate.go:223-287 | the loops give the verdict of the scan, for every history; for one that comes oldest first that is valid exactly when the newest attestation is vouched for |
| EndToEnd.Publish | internal/backup/backup.go:80-228 | what is published of the files, or a refusal of exactly what cannot be published |
| EndToEnd.Fetch | internal/discover/discover.go:434-495 | the on-chain archive's entries, every chunk, the archive's hash and its format checked |
| EndToEnd.Unbundle | internal/discover/discover.go:497-525 | the bundle's entries; a file that is altered or of another backup is refused |
| Acceptance.FetchedExactly | internal/discover/discover.go:447-495 | Fetch gives entries exactly when every chunk is found genuine and what they hold together has the manifest's hash and is the archive of these entries |
| Acceptance.UnbundledExactly | internal/discover/discover.go:499-525 | a bundle file is accepted exactly when it has the manifest's hash, opens as the bundle of this backup, and holds an archive with the manifest's hash |
| EndToEnd.ArchiveBack | internal/container/container.go:38-111 | an archive that was encoded and decoded holds the same entries, each path once |
| EndToEnd.SameRebuilt | internal/restore/restore.go:85-113 | the restored files do not depend on the order of an archive's entries |
| EndToEnd.SplitIsNarrow | internal/redact/redact.go:181-253 | both halves of a text of bytes are texts of bytes |
| EndToEnd.RestoreFrom | internal/restore/restore.go:70-140 | from the transactions and the bundle that were published every file comes back byte for byte with its mode, proven complete, and nothing else does |
| EndToEnd.PublishThenRestore | internal/restore/restore.go:70-140 | whatever can be published comes back so from its memos and its bundle file |
| EndToEnd.WorkingTools | internal/crypto/aead.go:114-123 | the tools that the way back asks for exist for every bundle |
| LedgerSearch.CandidateTells | internal/discover/discover.go:376-414 | over a safe ledger whatever discovery takes for a backup is a sealed manifest of it, and every chunk it names has landed |
| LedgerSearch.BackupIsFound | internal/discover/discover.go:113-229 | a manifest that has landed whole makes discovery name its backup, unless a memo under its nonce with another total came first |
| LedgerSearch.FaithfulViewExists | internal/backup/backup.go:306-337 | for whatever was sealed there is a view of the kind the theorems ask for |
| FullCircle.AnchoredIsWhole | internal/backup/backup.go:496-508 | a landed anchor means that a manifest of its backup, of at most 16 parts, is on the ledger whole |
| FullCircle.CarriersBack | internal/discover/discover.go:447-463 | the transactions that a landed manifest names carry the memos that were published |
| FullCircle.Discover | internal/discover/discover.go:113-328 | discovery over the ledger's own history gives a landed manifest of the backup, or all of its manifests were forestalled |
| FullCircle.BackUpAndRestore | internal/backup/backup.go:400-508 | once a submission reports success, discovery over the resulting ledger finds the backup and every file comes back, unless all its manifests were forestalled; whatever the dump, the mode, other writers and the network do |
| FullCircle.ViewsExist | internal/backup/backup.go:306-337 | the views that the circle asks for exist |
| Attestation.ValidExactly | internal/pubattest/delegate.go:211-222 | a delegated attestation is valid exactly when the last earlier verified delegation with its key and dseq verifies it and no earlier one of that key has a higher dseq |
| Attestation.FindingIsExplained | internal/pubattest/delegate.go:251-287 | the finding names the attestation, its ledger, the delegation that vouches for it and where that landed, or the first delegation that replaced its key, that none was there, or that the signature is bad |
| Attestation.EventsExactly | internal/pubattest/delegate.go:226-233 | what counts is exactly the memos of the account's own successful transactions |
| Attestation.MasterExactly | internal/pubattest/delegate.go:251-259 | a master-key attestation is judged by its own signature alone |
| Attestation.AppendedDelegations | internal/pubattest/delegate.go:211-222 | delegations and junk appended later never change a finding |
| Attestation.DroppedUnverified | internal/pubattest/delegate.go:220-222 | deleting a delegation that does not verify never changes a finding |
| Attestation.RetiredStaysRetired | internal/pubattest/delegate.go:15-20 | once a higher delegation has landed, no later attestation under the old one is valid |
| Base58.EncodeBase58 | internal/xrpl/sign/base58.go:66-85 | the division loop, the zero loop and the reversal give the encoding |
| Base58.EncodedIsTheNumber | internal/xrpl/sign/base58.go:66-85 | the encoding stands for the same number as the bytes and has as many letters of value 0 in front as they have zeros |
| Base58.ReverseInPlace | internal/xrpl/sign/base58.go:81-83 | the swap loop reverses the buffer |
| Base58.DecodeBase58 | internal/xrpl/sign/base58.go:87-104 | the multiplication loop and the zero count give the decoding |
| Base58.ValueOfLetter | internal/xrpl/sign/base58.go:12-29 | the decode table inverts the alphabet |
| Base58.DecodeInvertsEncode | internal/xrpl/sign/base58.go:66-104 | every byte string is recovered, leading zeros included |
| Base58.EncodeInvertsDecode | internal/xrpl/sign/base58.go:66-104 | every string over the alphabet is recovered |
| Base58.DecodeBase58Check | internal/xrpl/sign/base58.go:38-64 | accepts exactly the strings that EncodeBase58Check writes for that prefix and length, and gives their payload |
| Ripemd160.StartBytes | internal/xrpl/sign/ripemd160/ripemd160.go:31-37 | the start context, as the twenty bytes that it stands for |
| Ripemd160.Digest.Write | internal/xrpl/sign/ripemd160/ripemd160.go:64-88 | however the input is cut, context, buffer and count are those of the input so far |
| Ripemd160.Digest.Compress | internal/xrpl/sign/ripemd160/ripemd160.go:64-88 | every whole block is compressed and the number of bytes taken is given |
| Ripemd160.Digest.Sum | internal/xrpl/sign/ripemd160/ripemd160.go:90-124 | the one-shot hash, leaving the digest as it was; it is the context after the last block of the padded message, each word its lowest byte first; the panic is unreachable |
| Ripemd160.PaddedIsWhole | internal/xrpl/sign/ripemd160/ripemd160.go:94-112 | the padded message is whole blocks, for every length |
| Ripemd160.PaddedIsPadded | internal/xrpl/sign/ripemd160/ripemd160.go:94-110 | what is compressed is the message, 0x80, as few zeros as will do, and the length in bits as eight bytes, the lowest first |
| Ripemd160.PaddingIsInjective | internal/xrpl/sign/ripemd160/ripemd160.go:94-110 | no two messages, of any length, are padded alike |
| Ripemd160.OneHash | internal/xrpl/sign/ripemd160/ripemd160.go:90-124 | a message has exactly one hash in this sense, and the one-shot form computes it |
| Ripemd160.HashOf | internal/xrpl/sign/ripemd160/ripemd160.go:64-124 | every way of cutting a message into writes gives its one-shot hash, also when the 64-bit count wraps |

## Left out

- Network, JSON, dump files, prompts, flags, report text, exit codes and interrupts.
- The insides of AES-GCM, HKDF, HMAC, SHA-2, PBKDF2, ed25519, deflate and the RIPEMD-160 round.
- The regular expressions and the IP and host heuristics of `internal/redact/redact.go:361-502`: uninterpreted predicates of stanza and text.
- Unicode in the marker's trimming: spaces are recognised in their UTF-8 bytes, invalid sequences included as the model states them.
- The account that sends a transaction: only the writer's transactions are modelled, so the sender check of `internal/backup/backup.go:394` has nothing to refuse.
- Submission.Submitter.Submit: the ledger may refuse for ever, so success is promised only when no answer is to blame. The fee of a transaction that the run did not see land, such as a first attempt that lands after its retry, is outside the ceiling.
- DeleteAnchor (`internal/backup/backup.go:525-534`) and the transaction that deletes the DID entry.
- LedgerClient.Ledger.Submit: the codes for an unknown account, a bad signature, a missing amendment and a malformed batch are one `OtherCode`.
- EndToEnd.Publish: tombstones are not modelled.
- A ledger that later forgets or fails a validated transaction, and 32-bit overflow of account sequences.
- Judgement.Run: the searched ledger range and the wording of the warnings are not modelled.
- KeyShares.MixedSplitsRefused: two splits that drew the same 2-byte id and threshold are not told apart; `KeyShares.AcceptedExactly` says so.
- EndToEnd.PublishThenRestore: the ledger and the search in between are the matter of `FullCircle.BackUpAndRestore`.
- FullCircle.BackUpAndRestore: how a backup id is derived, and the manifest's fields beside its chunk references, which are taken from the plan; a chunk's transaction carries that chunk's memo alone.
- Sorting.SortOrders: the library sort is modelled by insertion, which fixes its result.
- Restore.Build: the order of the restored list and the wording of the to-do list are not modelled; files are a map by path.
- Container.Decode: the 32-bit count of entries and the 64-bit size of an entry are bounds on what Encode is given, not wrap-around.
- TxCodec.Serialize: the signature itself and the hashes over the bytes are not modelled.
- Key file layout, BIP39 words, share text, anchor record bytes, path checks, fee parsing, `NormalizeShare`.
- The tombstone fallback and the stale-epoch warning of the restore command.
