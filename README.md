# atfile folder upload: record-key codec and upload loop, in Dafny

This project models the part of the folder uploader that has invariants of its own:

- **the record-key codec** (`src/rkey.ts`). `filepathToRkey` turns a relative file path into a record key, and `rkeyToFilepath` turns a key back into a path.
- **the `upload` command's main loop** (`src/index.ts`, lines 60-131). It asks for confirmation, then walks the directory listing. For each file it derives the key, optionally encrypts the bytes, and skips the file when the store already lists the bytes' content id. Otherwise it uploads the blob and puts a `blue.zio.atfile.upload` record (nothing is written on a dry run).

Files:

- `wrappers.dfy`: `Option` and `Result`.
- `rkey.dfy` (module `Rkey`): the codec as pure functions over UTF-16 code units, with its lemmas.
  - The main theorem is `RoundTrip`: decoding the key of an accepted path gives back the path's normal form, with only ASCII `A`-`Z` lowercased.
- `upload.dfy` (module `Upload`): the prompt and the loop as methods.
  - `AskConfirmation` runs the do-while.
  - `UploadEntries` runs the for-of loop. Each pass is `UploadEntry`.
  - `UploadCommand` joins the two.
  - Each method is proved equal to a specification function (`FirstAnswer`, `ProcessEntry`, `RunEntries`). The lemmas state the run's properties on those functions.
  - `RunEntries` is `Run`, the loop over any body, applied to `ProcessEntry`. The lemmas about the loop's shape (`AbortIsFinal`, `RunConcat`) hold for every body.
  - The remote store and the libraries the loop calls are function-typed fields of `Collaborators`: content id, encryption, MIME lookup, blob upload and SHA-256.
  - Encryption is randomized. Each entry carries the random draw its pass would use (`Entry.entropy`), and `encrypt` takes it as an argument.
  - Every remote call is recorded as an `Action` in the run's trace.

Behaviour of the code worth noting:

- `_` is not kept as-is: it is outside `[A-Za-z0-9.-]`, so it is escaped as `_2n_`.
- Traversal is detected as a substring, not as a `..` path segment.
  - `a../b` is refused (`TraversalFalsePositive`).
  - A bare `..` is accepted and encodes to itself (`BareDotDotAccepted`).
- A path without a key aborts the whole run, not just that entry. The loop has no `try`, so the error escapes it (`BadPathAbortsRun`).
- `rkeyToFilepath` is total. It never reports a malformed key; any text that does not match the escape pattern is left as it is.
- The record's checksum is `getSha256(blob)`. It is not the content id the dedup check uses.
- The record's file name always gets `.age` appended, whether or not the file was encrypted.
- `if (encryptPassphrase)` tests JavaScript truthiness, so an empty passphrase means no encryption (`Encrypting`).

## Model

| member | source | states |
|---|---|---|
| `Rkey.FilepathToRkey` | `src/rkey.ts:1-35` | an accepted key is at most 512 units long, and every unit is in `[a-z0-9.\-:_]` |
| `Rkey.EmptyPathRejected` | `src/rkey.ts:2` | the empty path is refused with the empty-path error |
| `Rkey.Includes` | `src/rkey.ts:4` | `String.prototype.includes`: the pattern is a prefix of the string or occurs in its tail |
| `Rkey.IncludesIffOccurs` | `src/rkey.ts:4` | `includes` holds exactly when the pattern starts at some position of the string |
| `Rkey.IncludesUnit` | `src/rkey.ts:4` | for a one-unit pattern, `includes` is membership |
| `Rkey.ColonRejected` | `src/rkey.ts:4` | a non-empty path is refused for `:` exactly when it contains a raw `:` |
| `Rkey.ReplaceUnit` | `src/rkey.ts:6` | a global one-unit replace keeps the length and rewrites exactly the matching positions |
| `Rkey.StripPrefix` | `src/rkey.ts:8-14` | `startsWith` then `slice`: the result is a suffix of the input, at most the prefix's length shorter |
| `Rkey.Normalize` | `src/rkey.ts:6-14` | the normal form has no `\`; it is a suffix of the `\`-to-`/` rewritten path, at most three units shorter |
| `Rkey.NormalizeUnchanged` | `src/rkey.ts:8-14` | a path without `\` that starts with neither `./` nor `/` is its own normal form |
| `Rkey.HasTraversal` | `src/rkey.ts:16` | the traversal test: `../` or `/..` occurs as a substring |
| `Rkey.TraversalRejected` | `src/rkey.ts:16-18` | past the first two checks, a path is refused as traversal exactly when its normal form contains `../` or `/..` |
| `Rkey.NoTraversalWithoutDots` | `src/rkey.ts:16` | a string without `.` never counts as traversal |
| `Rkey.ParseBase36` | `src/rkey.ts:41` | `parseInt(digits, 36)` of a run of lowercase base-36 digits, most significant first |
| `Rkey.ToBase36` | `src/rkey.ts:27` | `toString(36)` gives lowercase digits that parse back to the number, with no leading zero and at most four digits below 36^4 (so for any code unit) |
| `Rkey.EscapeUnit` | `src/rkey.ts:23-28` | the regex callback's replacement for one unit: the unit itself if kept, `:` for `\` or `/`, otherwise `_`, its base-36 code, `_` |
| `Rkey.Escape` | `src/rkey.ts:23-28` | the global replace: every unit replaced by its `EscapeUnit`, in order |
| `Rkey.Transform` | `src/rkey.ts:20-30` | the replace followed by `toLowerCase` |
| `Rkey.EncodeUnitRule` | `src/rkey.ts:23-30` | after lowercasing, a unit in `[A-Za-z0-9.-]` becomes its lowercase self, `/` becomes `:`, and any other unit becomes `_`, its base-36 code, `_` |
| `Rkey.EscapeConcat` | `src/rkey.ts:23-28` | the per-unit rewrite distributes over concatenation |
| `Rkey.TransformConcat` | `src/rkey.ts:20-30` | rewrite-then-lowercase distributes over concatenation |
| `Rkey.LowerAscii` | `src/rkey.ts:30` | lowercasing keeps the length and changes exactly the units `A`-`Z` |
| `Rkey.EscapeAlphabet` | `src/rkey.ts:23-28` | the rewrite produces only units from `[A-Za-z0-9.\-:_]`, so ASCII-only lowercasing is exact on its output |
| `Rkey.TransformAlphabet` | `src/rkey.ts:20-30` | after lowercasing, every unit of the key is in `[a-z0-9.\-:_]` |
| `Rkey.LengthBound` | `src/rkey.ts:32-34` | past the first three checks, the result is the too-long error exactly when the rewritten, lowercased path exceeds 512 units, and is that key otherwise |
| `Rkey.EscapedLength` | `src/rkey.ts:27` | every escaped unit takes at least three units of the key |
| `Rkey.LongEscapedPathRejected` | `src/rkey.ts:27-32` | a path of more than 170 units that all need escaping is refused as too long |
| `Rkey.EscapeExamples` | `src/rkey.ts:27` | space escapes to `_w_`, `_` to `_2n_`, and 0xFFFF to `_1ekf_` |
| `Rkey.SpaceEscape` | `src/rkey.ts:27` | space escapes to `_w_` |
| `Rkey.UnderscoreEscape` | `src/rkey.ts:27` | `_` escapes to `_2n_` |
| `Rkey.LargestEscape` | `src/rkey.ts:27` | the largest unit, 0xFFFF, escapes to `_1ekf_`, four digits |
| `Rkey.LeadingDigits` | `src/rkey.ts:40` | counts exactly the run of base-36 digits at the start of a string |
| `Rkey.MatchesEscape` | `src/rkey.ts:40` | the pattern `_([0-9a-z]{1,4})_` matches at the start of a string with the given number of digits |
| `Rkey.EscapeRunAt` | `src/rkey.ts:40` | a positive result is a match of `_([0-9a-z]{1,4})_` at the start of the string; zero means no match there |
| `Rkey.FromCharCode` | `src/rkey.ts:41` | `String.fromCharCode`: the code reduced modulo 2^16 |
| `Rkey.DecodeEscapes` | `src/rkey.ts:40-42` | decoding the escape runs never lengthens the string |
| `Rkey.DecodeNoUnderscore` | `src/rkey.ts:40-42` | a string without `_` has nothing to decode |
| `Rkey.DecodePlain` | `src/rkey.ts:40-42` | a unit other than `_` passes through the decoder |
| `Rkey.DecodeEscapeRun` | `src/rkey.ts:40-42` | an escape run of one to four digits decodes to one unit, its value modulo 2^16 |
| `Rkey.RkeyToFilepath` | `src/rkey.ts:37-43` | the decoded path is no longer than the key; without `_` it is the key with `:` made `/` |
| `Rkey.DecodeEncodedUnit` | `src/rkey.ts:23-41` | decoding one rewritten unit gives that unit lowercased, and decoding continues unaffected after it |
| `Rkey.DecodeEscapedUnit` | `src/rkey.ts:27-41` | decoding an escaped unit gives back the exact unit |
| `Rkey.DecodeTransform` | `src/rkey.ts:20-42` | for any path without `\`, decoding its rewritten, lowercased form gives the path lowercased |
| `Rkey.RoundTrip` | `src/rkey.ts:1-43` | decoding the key of any accepted path gives that path's normal form with `A`-`Z` lowercased |
| `Rkey.RoundTripExact` | `src/rkey.ts:1-43` | for a path whose normal form has no uppercase ASCII, the round trip is exact |
| `Rkey.KeysDetermineLoweredPath` | `src/rkey.ts:1-43` | two accepted paths with the same key have the same normal form up to ASCII case |
| `Rkey.PlainPathEncoding` | `src/rkey.ts:20-30` | a path of lowercase kept units and `/` is rewritten to itself with `/` made `:` |
| `Rkey.PlainPathRoundTrip` | `src/rkey.ts:1-43` | the identity case: a short plain path not starting with `./` or `/` and without traversal encodes to itself with `/` made `:`, and decodes back exactly |
| `Rkey.PlainPathEncodes` | `src/rkey.ts:1-35` | the encoding half of the identity case |
| `Rkey.PlainPathDecodes` | `src/rkey.ts:37-43` | the decoding half of the identity case |
| `Rkey.TraversalInsidePath` | `src/rkey.ts:16-18` | `a/../b` is refused as traversal |
| `Rkey.TraversalAtStart` | `src/rkey.ts:16-18` | `../x` is refused as traversal |
| `Rkey.TraversalFalsePositive` | `src/rkey.ts:16-18` | `a../b`, which has no `..` segment, is still refused as traversal |
| `Rkey.BareDotDotAccepted` | `src/rkey.ts:16-18` | a bare `..` is accepted, and its key is `..` |
| `Rkey.SlashOnly` | `src/rkey.ts:2-14` | `/` passes the emptiness check and gets the empty key |
| `Rkey.DotSlashOnly` | `src/rkey.ts:2-14` | `./` passes the emptiness check and gets the empty key |
| `Rkey.ColonBeforeTraversal` | `src/rkey.ts:4-18` | `../:` is refused for its `:`, because that check comes first |
| `Rkey.SpaceEncodes` | `src/rkey.ts:1-35` | `a b` has the key `a_w_b` |
| `Rkey.SpaceKey` | `src/rkey.ts:1-35` | `a b` passes every check, and its key is its rewritten, lowercased form |
| `Rkey.SpaceTransform` | `src/rkey.ts:20-30` | `a b` is rewritten to `a_w_b` |
| `Rkey.SpaceDecodes` | `src/rkey.ts:37-43` | the key `a_w_b` decodes to `a b` |
| `Upload.TrimStart` | `src/index.ts:63` | the result is a suffix of the input; everything removed is whitespace; the result does not start with whitespace |
| `Upload.TrimEnd` | `src/index.ts:63` | the result is a prefix of the input; everything removed is whitespace; the result does not end with whitespace |
| `Upload.LowerChars` | `src/index.ts:63` | lowercasing keeps the length and changes exactly `A`-`Z` |
| `Upload.Trim` | `src/index.ts:63` | `trim()`: `TrimStart` then `TrimEnd` |
| `Upload.NormalizeAnswer` | `src/index.ts:62-63` | the value stored in `answer` for a reply: trimmed, then lowercased |
| `Upload.IsDecisive` | `src/index.ts:64` | the loop's exit test: the stored answer is `y` or `n` |
| `Upload.YesReplies` | `src/index.ts:62-66` | a reply counts as yes exactly when, trimmed, it is `y` or `Y` |
| `Upload.FirstAnswer` | `src/index.ts:60-64` | a settled answer is `y` or `n` |
| `Upload.NoAnswer` | `src/index.ts:60-64` | no answer is settled exactly when no reply trims and lowercases to `y` or `n` |
| `Upload.AskConfirmation` | `src/index.ts:60-64` | the do-while returns `FirstAnswer` of the replies; it stops at the first decisive reply, which gives the answer, after only non-decisive ones |
| `Upload.Encrypting` | `src/index.ts:84-113` | the truthiness test `if (encryptPassphrase)`: a passphrase is set and is not empty |
| `Upload.StoredBytes` | `src/index.ts:82-86` | the bytes hashed and stored: the file encrypted with the passphrase and the pass's random draw when encrypting, the file as read otherwise |
| `Upload.DeclaredType` | `src/index.ts:96-101` | the blob's declared type: `application/vnd.age` when encrypting, else the MIME lookup of the file |
| `Upload.MakeRecord` | `src/index.ts:104-126` | the record literal: collection type, blob, file info (`.age` name, size, type), SHA-256 checksum and finger |
| `Upload.ProcessEntry` | `src/index.ts:73-129` | one pass: nothing for a directory; the key error; a skip report when the content id is listed; nothing on a dry run; otherwise an upload and a put |
| `Upload.Run` | `src/index.ts:72-130` | the loop over any body: passes in order, each appending its actions, until the first error escapes |
| `Upload.Pass` | `src/index.ts:73-129` | the loop body for a fixed configuration, as a function of the entry |
| `Upload.RunEntries` | `src/index.ts:72-130` | the loop of the `upload` command: `Run` with `ProcessEntry` as its body |
| `Upload.UploadEntry` | `src/index.ts:73-129` | one pass of the loop body does exactly what `ProcessEntry` says: no action for a directory; the key error for a bad path; otherwise a skip report, nothing (dry run), or an upload followed by a put |
| `Upload.UploadEntries` | `src/index.ts:72-130` | the loop's trace and abort are exactly `RunEntries` of the listing |
| `Upload.EntryStep` | `src/index.ts:72-130` | for any loop body: a pass extends the run over the entries before it, and an error ends the run with the trace so far |
| `Upload.RunConcat` | `src/index.ts:72-130` | for any loop body: after a run over `a` that did not abort, the run over `a + b` appends the run over `b` from scratch and ends as it does; no pass depends on an earlier one |
| `Upload.UploadCommand` | `src/index.ts:66-72` | nothing happens unless the answer is `y`; on `y`, the run is `RunEntries` against the blobs listed once beforehand |
| `Upload.AbortIsFinal` | `src/index.ts:79` | for any loop body: once a run has aborted, later entries change nothing |
| `Upload.BadPathAbortsRun` | `src/index.ts:79` | a file whose path has no key ends the run with that error; the trace is what came before it, and nothing after it is processed |
| `Upload.DirectoriesIgnored` | `src/index.ts:73` | a directory entry, wherever it appears, leaves the run unchanged |
| `Upload.DedupDecision` | `src/index.ts:82-94` | for a file with a key: it is skipped with exactly one report, `already uploaded!`, exactly when the content id of the bytes to be stored is listed; an unlisted file gives nothing on a dry run and an upload followed by a put otherwise; it makes a remote write exactly when that id is not listed and the run is not a dry run |
| `Upload.DryRunWritesNothing` | `src/index.ts:94-129` | a dry run's trace has no upload and no put |
| `Upload.Skips` | `src/index.ts:89-91` | an action is among the skip reports taken from a trace exactly when it is a skip report in the trace |
| `Upload.DryRunEntry` | `src/index.ts:73-129` | for one entry, the dry run fails the same way as the live run, or else keeps exactly the live run's skip reports |
| `Upload.DryRunPreviewsLiveRun` | `src/index.ts:72-130` | a dry run's trace is exactly the skip reports of the live run, in order, and both runs end the same way |
| `Upload.UploadThenPut` | `src/index.ts:94-128` | in every trace, each upload is immediately followed by a put whose record references that upload's blob, and each put immediately follows an upload |
| `Upload.PutsDescribeEntries` | `src/index.ts:96-126` | every put in a run describes some listed file: its key is `filepathToRkey` of the file's path; its record's blob, name (path plus `.age`), size, MIME type, checksum and finger are as the loop builds them |
| `Upload.EntryPutDescribes` | `src/index.ts:96-126` | the put made by one pass describes that pass's entry |
| `Upload.SameNewContentUploadedTwice` | `src/index.ts:67-89` | the listing is taken once and never added to, so two new files with the same bytes in one run are both uploaded, with the same data when not encrypting |
| `Upload.SecondRunSkips` | `src/index.ts:82-92` | without encryption, a file uploaded by one run is skipped by a later run over the same file whose listing holds its content id |
| `Upload.EncryptedRerunUploadsAgain` | `src/index.ts:82-128` | with a passphrase, a later run over the same file encrypts it afresh and uploads and puts it again whenever the new ciphertext's content id is not listed |

## Left out

- Lines 1-59 and 131-136 of `src/index.ts` are not part of this model: argument parsing, environment, login, the `daemon` command, and the `readdir` call.
  - The listing is given as a sequence of entries, so `join` and `nodePath.relative` are not modelled. `Entry.path` is the path after line 76 has turned every `\` into `/` and `relative` has made it relative to the uploaded folder. It is what `filepathToRkey` and the record's `${path}.age` receive.
- `src/daemon.ts`, `src/crypto.ts` and `src/mime.ts` are not part of this model.
  - `encryptData`, `createCid`/`cidToString`, `lookupMime`/`parseMime`, `agent.uploadBlob` and `getSha256` are uninterpreted functions in `Collaborators`.
  - `lookupMime` receives `Entry.path` rather than `realPath`. It only looks at the file name. Both end with the same name unless the name contains a `\`, which line 76 rewrites in `Entry.path` only.
- Remote calls (`paginatedListBlobs`, `uploadBlob`, `put`) are modelled as always succeeding. A rejected call would throw out of the loop; that path is not modelled.
- Reading the file (`readFile`) is modelled by the entry's `contents`; a read error is not modelled.
- The record's `createdAt` and `file.modifiedAt` timestamps and its `repo` field are left out, because they come from the clock, the file system and the session.
- `console.log` output is left out, except for `already uploaded!`, which is the `AlreadyUploaded` action.
- `Upload.AskConfirmation`: the prompt's replies are a finite sequence. If they run out with no `y` or `n`, the answer is `None` and nothing is uploaded; the program itself would keep waiting for input.
- `Upload.LowerChars`: `toLowerCase` on a reply is modelled for `A`-`Z` only. No other character lowercases to `y` or `n`, so the answer is unaffected.
- `Rkey.LowerAscii`: the key's `toLowerCase` is modelled for ASCII only. `Rkey.EscapeAlphabet` proves that the rewritten path is ASCII, so nothing is lost.
- The `$$ === '\\'` branch of the rewrite cannot fire, because line 6 has already turned every `\` into `/`. `EscapeUnit` keeps the branch, and `Normalize` proves that no `\` reaches it.
- `Upload.SecondRunSkips`: holds only without encryption. With a passphrase, `encryptData` (age) draws a fresh file key, salt and nonce on every call. The ciphertext, and so its content id, changes from run to run, so dedup across runs does not match. `Upload.EncryptedRerunUploadsAgain` states what happens instead.
- `Upload.SameNewContentUploadedTwice`: the equal-data clause holds only without encryption, since two encryptions of the same bytes differ.
- `Upload.DryRunPreviewsLiveRun`: compares a dry run and a live run that use the same random draws. Two separate runs with a passphrase encrypt separately, so the skips the dry run reports need not be those of a later live run.
- The random draw of each pass is a field of its entry. Whether two draws give the same ciphertext is left to `encrypt`, which is uninterpreted.
