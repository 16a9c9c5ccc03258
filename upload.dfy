/**
  The `upload` command of src/index.ts (lines 60-131): the yes/no prompt, then
  one pass over the directory listing that skips directories, derives each
  file's record key, stores the (optionally encrypted) bytes unless their
  content id is already in the store, and writes one record per stored blob.

  The remote store and the libraries the loop calls are collaborators:
  `Collaborators` holds them as functions, and every remote call the loop
  makes is appended to a trace of `Action`s. `UploadEntries` is proved equal
  to the specification `RunEntries`, whose properties are the lemmas below.
*/
module Upload {
  import opened Wrappers
  import Rkey

  newtype Byte = b: int | 0 <= b < 0x100

  type Bytes = seq<Byte>

  /** The string form of a content id (`cidToString`). */
  type Cid = string

  /**
    One entry of the recursive directory listing. `path` is the entry's path
    relative to the uploaded folder, after line 76 has turned every `\` of the
    absolute path into `/`. `entropy` is the random draw age makes if this
    pass encrypts (a fresh file key, scrypt salt and payload nonce).
  */
  datatype Entry = Entry(isDirectory: bool, path: Rkey.Str, contents: Bytes, entropy: nat)

  /** The blob reference the store returns for an upload. */
  datatype BlobRef = BlobRef(ref: Cid, mimeType: string, size: nat)

  /** The functions the loop calls but does not define. */
  datatype Collaborators = Collaborators(
    createCid: Bytes -> Cid,                            // cidToString(createCid(0x55, bytes))
    encrypt: (Bytes, string, nat) -> Bytes,             // encryptData(bytes, passphrase), with its random draw
    lookupMime: (Rkey.Str, Bytes) -> Option<string>,    // lookupMime(path) ?? parseMime(bytes)?.mime
    uploadBlob: (Bytes, Option<string>) -> BlobRef,     // agent.uploadBlob(new Blob([bytes], {type}))
    sha256: BlobRef -> string)                          // getSha256(blob)

  /** What the run is given: the store's content ids (listed once, before the loop), the dry-run flag and the passphrase. */
  datatype Config = Config(snapshot: set<Cid>, dryRun: bool, passphrase: Option<string>)

  datatype FileInfo = FileInfo(mimeType: string, name: Rkey.Str, size: nat)
  datatype Checksum = Checksum(algo: string, hash: string)
  datatype Finger = Finger(fingerType: string, app: string)

  /** The `blue.zio.atfile.upload` record put for each stored file (timestamps left out). */
  datatype UploadRecord = UploadRecord(
    recordType: string, blob: BlobRef, file: FileInfo, checksum: Checksum, finger: Finger)

  /** What the loop does for a file, in order. */
  datatype Action =
    | AlreadyUploaded(path: Rkey.Str)                                 // the "already uploaded!" report
    | UploadBlob(data: Bytes, mimeType: Option<string>)               // agent.uploadBlob
    | PutRecord(collection: string, rkey: Rkey.Str, record: UploadRecord) // agent.put

  /** The trace of a run and, when a record key could not be derived, the error that ended it. */
  datatype RunResult = RunResult(trace: seq<Action>, abortedBy: Option<Rkey.RkeyError>)

  const Collection := "blue.zio.atfile.upload"
  const AgeMimeType := "application/vnd.age"
  const ChecksumAlgo := "sha-256"
  const FingerType := "blue.zio.atfile.finger#machine"
  const FingerApp := "atfile-upload-folder/1.0.0"

  /** `.age`, appended to every record's file name. */
  const AgeSuffix: Rkey.Str := [Rkey.Dot, 'a' as int, 'g' as int, 'e' as int]

  predicate IsRemoteWrite(a: Action) {
    a.UploadBlob? || a.PutRecord?
  }

  // ---------------------------------------------------------------------------
  // The confirmation prompt (lines 60-66)

  /** The code points `String.prototype.trim` removes: WhiteSpace and LineTerminator. */
  predicate IsTrimmed(c: char) {
    c == '\t' || c == '\n' || c == '\U{000B}' || c == '\U{000C}' || c == '\r' || c == ' ' ||
    c == '\U{00A0}' || c == '\U{1680}' || ('\U{2000}' <= c <= '\U{200A}') ||
    c == '\U{2028}' || c == '\U{2029}' || c == '\U{202F}' || c == '\U{205F}' ||
    c == '\U{3000}' || c == '\U{FEFF}'
  }

  function TrimStart(s: string): (r: string)
    ensures |r| <= |s| && r == s[|s| - |r|..]
    ensures forall i :: 0 <= i < |s| - |r| ==> IsTrimmed(s[i])
    ensures r != [] ==> !IsTrimmed(r[0])
  {
    if s != [] && IsTrimmed(s[0]) then TrimStart(s[1..]) else s
  }

  function TrimEnd(s: string): (r: string)
    ensures |r| <= |s| && r == s[..|r|]
    ensures forall i :: |r| <= i < |s| ==> IsTrimmed(s[i])
    ensures r != [] ==> !IsTrimmed(r[|r| - 1])
  {
    if s != [] && IsTrimmed(s[|s| - 1]) then TrimEnd(s[..|s| - 1]) else s
  }

  /** `trim()`: whitespace removed from both ends. */
  function Trim(s: string): string {
    TrimEnd(TrimStart(s))
  }

  /** `toLowerCase()` on the letters that matter here: `A`-`Z`. */
  function LowerChars(s: string): (r: string)
    ensures |r| == |s|
    ensures forall i :: 0 <= i < |s| ==> r[i] == if 'A' <= s[i] <= 'Z' then (s[i] as int + 32) as char else s[i]
  {
    if s == [] then [] else
      [if 'A' <= s[0] <= 'Z' then (s[0] as int + 32) as char else s[0]] + LowerChars(s[1..])
  }

  /** The value the loop stores in `answer` for one reply. */
  function NormalizeAnswer(reply: string): string {
    LowerChars(Trim(reply))
  }

  /** A reply that ends the prompt loop. */
  predicate IsDecisive(reply: string) {
    NormalizeAnswer(reply) == "y" || NormalizeAnswer(reply) == "n"
  }

  /** A reply is read as yes exactly when, trimmed, it is `y` or `Y`. */
  lemma YesReplies(reply: string)
    ensures NormalizeAnswer(reply) == "y" <==> Trim(reply) == "y" || Trim(reply) == "Y"
  {
    var t := Trim(reply);
    if NormalizeAnswer(reply) == "y" {
      assert |t| == 1 && LowerChars(t)[0] == 'y';
    }
  }

  /** The answer the prompt settles on for a sequence of replies, if any reply settles it. */
  function FirstAnswer(replies: seq<string>): (r: Option<string>)
    ensures r.Some? ==> r.value == "y" || r.value == "n"
  {
    if replies == [] then None
    else if IsDecisive(replies[0]) then Some(NormalizeAnswer(replies[0]))
    else FirstAnswer(replies[1..])
  }

  /** The prompt settles on no answer exactly when no reply is decisive. */
  lemma NoAnswer(replies: seq<string>)
    ensures FirstAnswer(replies).None? <==> forall j :: 0 <= j < |replies| ==> !IsDecisive(replies[j])
  {
    forall j | 0 <= j < |replies| && IsDecisive(replies[j])
      ensures FirstAnswer(replies).Some?
    {
      AnswerAt(replies, j);
    }
    if forall j :: 0 <= j < |replies| ==> !IsDecisive(replies[j]) {
      NoneDecisive(replies);
    }
  }

  lemma AnswerAt(replies: seq<string>, k: nat)
    requires k < |replies| && IsDecisive(replies[k])
    ensures FirstAnswer(replies).Some?
  {
    AnswerFrom(replies, 0, k);
    assert replies[0..] == replies;
  }

  /** Some answer is settled from question `j` on, when reply `k` (not before `j`) is decisive. */
  lemma {:induction false} AnswerFrom(replies: seq<string>, j: nat, k: nat)
    requires j <= k < |replies| && IsDecisive(replies[k])
    ensures FirstAnswer(replies[j..]).Some?
    decreases k - j
  {
    if j < k && !IsDecisive(replies[j]) {
      assert replies[j..][1..] == replies[j + 1..];
      AnswerFrom(replies, j + 1, k);
    }
  }

  lemma {:induction false} NoneDecisive(replies: seq<string>)
    requires forall j :: 0 <= j < |replies| ==> !IsDecisive(replies[j])
    ensures FirstAnswer(replies).None?
  {
    if replies != [] {
      var rest := replies[1..];
      forall j | 0 <= j < |rest|
        ensures !IsDecisive(rest[j])
      {
        assert rest[j] == replies[j + 1];
      }
      NoneDecisive(rest);
      assert !IsDecisive(replies[0]);
    }
  }

  /**
    The do-while prompt: ask until a reply trims and lowercases to `y` or `n`.
    `asked` is the number of questions put; `None` means the replies ran out.
  */
  method AskConfirmation(replies: seq<string>) returns (answer: Option<string>, asked: nat)
    ensures answer == FirstAnswer(replies)
    ensures asked <= |replies|
    ensures answer.Some? ==> 1 <= asked && IsDecisive(replies[asked - 1]) &&
                             answer.value == NormalizeAnswer(replies[asked - 1])
    ensures answer.None? ==> asked == |replies|
    ensures forall j :: 0 <= j < asked && (answer.Some? ==> j < asked - 1) ==> !IsDecisive(replies[j])
  {
    asked := 0;
    var current := "";
    while true
      invariant asked <= |replies|
      invariant forall j :: 0 <= j < asked ==> !IsDecisive(replies[j])
      invariant FirstAnswer(replies) == FirstAnswer(replies[asked..])
      decreases |replies| - asked
    {
      if asked == |replies| {
        answer := None;
        return;
      }
      assert replies[asked..][1..] == replies[asked + 1..];
      current := NormalizeAnswer(replies[asked]);
      asked := asked + 1;
      if current == "y" || current == "n" {
        answer := Some(current);
        return;
      }
    }
  }

  // ---------------------------------------------------------------------------
  // One entry of the upload loop (lines 72-129)

  /** `if (encryptPassphrase)`: an empty passphrase is falsy and turns encryption off. */
  predicate Encrypting(passphrase: Option<string>) {
    passphrase.Some? && passphrase.value != ""
  }

  /** The bytes that are hashed and stored: encrypted when a passphrase is set. */
  function StoredBytes(entry: Entry, passphrase: Option<string>, env: Collaborators): Bytes {
    if Encrypting(passphrase) then env.encrypt(entry.contents, passphrase.value, entry.entropy) else entry.contents
  }

  /** The type given to the uploaded blob (lines 98-100). */
  function DeclaredType(entry: Entry, passphrase: Option<string>, env: Collaborators): Option<string> {
    if Encrypting(passphrase) then Some(AgeMimeType) else env.lookupMime(entry.path, entry.contents)
  }

  /** The record literal of lines 108-126. */
  function MakeRecord(path: Rkey.Str, blob: BlobRef, passphrase: Option<string>, env: Collaborators): UploadRecord {
    UploadRecord(
      Collection,
      blob,
      FileInfo(if Encrypting(passphrase) then AgeMimeType else blob.mimeType, path + AgeSuffix, blob.size),
      Checksum(ChecksumAlgo, env.sha256(blob)),
      Finger(FingerType, FingerApp))
  }

  /** What the loop does for one entry, or the error `filepathToRkey` throws for it. */
  function ProcessEntry(entry: Entry, cfg: Config, env: Collaborators): Outcome {
    if entry.isDirectory then Ok([])
    else match Rkey.FilepathToRkey(entry.path)
      case Err(e) => Err(e)
      case Ok(rkey) =>
        var file := StoredBytes(entry, cfg.passphrase, env);
        if env.createCid(file) in cfg.snapshot then Ok([AlreadyUploaded(entry.path)])
        else if cfg.dryRun then Ok([])
        else
          var declared := DeclaredType(entry, cfg.passphrase, env);
          var blob := env.uploadBlob(file, declared);
          Ok([UploadBlob(file, declared), PutRecord(Collection, rkey, MakeRecord(entry.path, blob, cfg.passphrase, env))])
  }

  /** What one pass of the loop body yields: its actions, or the key error that escapes the loop. */
  type Outcome = Result<seq<Action>, Rkey.RkeyError>

  /**
    The `for … of` loop with `step` as its body: the passes in order, each
    appending its actions to the trace, until the first error escapes.
  */
  function Run(entries: seq<Entry>, step: Entry -> Outcome): RunResult
    decreases |entries|
  {
    if entries == [] then RunResult([], None)
    else
      var before := Run(entries[..|entries| - 1], step);
      if before.abortedBy.Some? then before
      else match step(entries[|entries| - 1])
        case Err(e) => RunResult(before.trace, Some(e))
        case Ok(actions) => RunResult(before.trace + actions, None)
  }

  /** The loop body of lines 73-129, for a fixed configuration. */
  function Pass(cfg: Config, env: Collaborators): Entry -> Outcome {
    entry => ProcessEntry(entry, cfg, env)
  }

  /** The run over a listing: entries in order, stopping at the first key error. */
  function RunEntries(entries: seq<Entry>, cfg: Config, env: Collaborators): RunResult {
    Run(entries, Pass(cfg, env))
  }

  // ---------------------------------------------------------------------------
  // The loop and the command

  /**
    One pass of the loop body for `entry`: the actions it takes, or the key
    error that escapes the loop. `return` stands for the body's `continue`.
  */
  method UploadEntry(entry: Entry, cfg: Config, env: Collaborators)
    returns (actions: seq<Action>, error: Option<Rkey.RkeyError>)
    ensures error.Some? ==> ProcessEntry(entry, cfg, env) == Err(error.value) && actions == []
    ensures error.None? ==> ProcessEntry(entry, cfg, env) == Ok(actions)
  {
    actions, error := [], None;
    if entry.isDirectory {
      assert ProcessEntry(entry, cfg, env) == Ok([]);
      return;
    }

    var rkey := Rkey.FilepathToRkey(entry.path);
    if rkey.Err? {
      error := Some(rkey.error);
      return;
    }

    assert rkey == Ok(rkey.value);
    var file := entry.contents;
    if Encrypting(cfg.passphrase) {
      file := env.encrypt(file, cfg.passphrase.value, entry.entropy);
    }

    assert file == StoredBytes(entry, cfg.passphrase, env);
    var cidCompare := env.createCid(file);
    if cidCompare in cfg.snapshot {
      actions := [AlreadyUploaded(entry.path)];
      assert ProcessEntry(entry, cfg, env) == Ok(actions);
      return;
    }

    if !cfg.dryRun {
      var declared := if Encrypting(cfg.passphrase) then Some(AgeMimeType) else env.lookupMime(entry.path, file);
      assert declared == DeclaredType(entry, cfg.passphrase, env);
      var blob := env.uploadBlob(file, declared);
      var record := MakeRecord(entry.path, blob, cfg.passphrase, env);
      actions := actions + [UploadBlob(file, declared)];
      actions := actions + [PutRecord(Collection, rkey.value, record)];
      assert actions == [UploadBlob(file, declared), PutRecord(Collection, rkey.value, record)];
      assert ProcessEntry(entry, cfg, env) == Ok(actions);
    } else {
      assert ProcessEntry(entry, cfg, env) == Ok([]);
    }
  }

  /** The `for (const entry of dir)` loop: a key error ends the whole run. */
  method UploadEntries(entries: seq<Entry>, cfg: Config, env: Collaborators)
    returns (trace: seq<Action>, abortedBy: Option<Rkey.RkeyError>)
    ensures RunResult(trace, abortedBy) == RunEntries(entries, cfg, env)
  {
    trace, abortedBy := [], None;
    for i := 0 to |entries|
      invariant RunEntries(entries[..i], cfg, env) == RunResult(trace, None)
    {
      var actions, error := UploadEntry(entries[i], cfg, env);
      EntryStep(entries, i, trace, actions, error, Pass(cfg, env));
      if error.Some? {
        abortedBy := error;
        return;
      }
      trace := trace + actions;
    }
    assert entries[..|entries|] == entries;
  }

  /** How one pass of the loop body extends the run over the entries before it. */
  lemma EntryStep(entries: seq<Entry>, i: nat, trace: seq<Action>, actions: seq<Action>,
                  error: Option<Rkey.RkeyError>, step: Entry -> Outcome)
    requires i < |entries| && Run(entries[..i], step) == RunResult(trace, None)
    requires error.Some? ==> step(entries[i]) == Err(error.value)
    requires error.None? ==> step(entries[i]) == Ok(actions)
    ensures error.Some? ==> Run(entries, step) == RunResult(trace, error)
    ensures error.None? ==> Run(entries[..i + 1], step) == RunResult(trace + actions, None)
  {
    RunStep(entries[..i], entries[i], step);
    assert entries[..i] + [entries[i]] == entries[..i + 1];
    if error.Some? {
      AbortIsFinal(entries[..i + 1], entries[i + 1..], step);
      assert entries[..i + 1] + entries[i + 1..] == entries;
    }
  }

  /**
    The `upload` command after the listing: confirm, list the store's blobs
    once, then run the loop only on a yes.
  */
  method UploadCommand(entries: seq<Entry>, replies: seq<string>, listed: seq<Cid>,
                       dryRun: bool, passphrase: Option<string>, env: Collaborators)
    returns (trace: seq<Action>, abortedBy: Option<Rkey.RkeyError>)
    ensures FirstAnswer(replies) != Some("y") ==> trace == [] && abortedBy == None
    ensures FirstAnswer(replies) == Some("y") ==>
      RunResult(trace, abortedBy) == RunEntries(entries, Config((set c | c in listed), dryRun, passphrase), env)
  {
    trace, abortedBy := [], None;
    var answer, _ := AskConfirmation(replies);
    if answer == Some("y") {
      var allBlobs := set c | c in listed;
      trace, abortedBy := UploadEntries(entries, Config(allBlobs, dryRun, passphrase), env);
    }
  }

  // ---------------------------------------------------------------------------
  // Properties of a run

  /** Once a run has aborted, later entries change nothing, whatever the loop body. */
  lemma {:induction false} AbortIsFinal(entries: seq<Entry>, rest: seq<Entry>, step: Entry -> Outcome)
    requires Run(entries, step).abortedBy.Some?
    ensures Run(entries + rest, step) == Run(entries, step)
  {
    if rest != [] {
      var shorter := rest[..|rest| - 1];
      assert (entries + rest)[..|entries + rest| - 1] == entries + shorter;
      AbortIsFinal(entries, shorter, step);
    } else {
      assert entries + rest == entries;
    }
  }

  /** A file whose path has no key aborts the run: nothing after it is processed. */
  lemma BadPathAbortsRun(before: seq<Entry>, entry: Entry, after: seq<Entry>, cfg: Config, env: Collaborators)
    requires RunEntries(before, cfg, env).abortedBy.None?
    requires !entry.isDirectory && Rkey.FilepathToRkey(entry.path).Err?
    ensures RunEntries(before + [entry] + after, cfg, env)
         == RunResult(RunEntries(before, cfg, env).trace, Some(Rkey.FilepathToRkey(entry.path).error))
  {
    assert (before + [entry])[..|before|] == before;
    AbortIsFinal(before + [entry], after, Pass(cfg, env));
  }

  /** Directory entries produce no action wherever they appear. */
  lemma {:induction false} DirectoriesIgnored(before: seq<Entry>, dir: Entry, after: seq<Entry>, cfg: Config, env: Collaborators)
    requires dir.isDirectory
    ensures RunEntries(before + [dir] + after, cfg, env) == RunEntries(before + after, cfg, env)
  {
    if after == [] {
      assert (before + [dir])[..|before|] == before;
      assert before + [dir] + after == before + [dir];
      assert before + after == before;
    } else {
      var shorter := after[..|after| - 1];
      assert (before + [dir] + after)[..|before + [dir] + after| - 1] == before + [dir] + shorter;
      assert (before + after)[..|before + after| - 1] == before + shorter;
      DirectoriesIgnored(before, dir, shorter, cfg, env);
    }
  }

  /**
    The dedup decision for one file with a valid path: it is skipped, with one
    report, exactly when the content id of the bytes to be stored is already
    listed; otherwise it is uploaded and put, unless the run is a dry run, which
    does nothing for it.
  */
  lemma DedupDecision(entry: Entry, cfg: Config, env: Collaborators)
    requires !entry.isDirectory && Rkey.FilepathToRkey(entry.path).Ok?
    ensures var listed := env.createCid(StoredBytes(entry, cfg.passphrase, env)) in cfg.snapshot;
      var actions := ProcessEntry(entry, cfg, env);
      && actions.Ok?
      && (listed ==> actions.value == [AlreadyUploaded(entry.path)])
      && (listed <==> AlreadyUploaded(entry.path) in actions.value)
      && (!listed && cfg.dryRun ==> actions.value == [])
      && (!listed && !cfg.dryRun ==>
            |actions.value| == 2 && actions.value[0].UploadBlob? && actions.value[1].PutRecord?)
      && ((exists a :: a in actions.value && IsRemoteWrite(a)) <==> !listed && !cfg.dryRun)
  {
    var actions := ProcessEntry(entry, cfg, env);
    if !cfg.dryRun && env.createCid(StoredBytes(entry, cfg.passphrase, env)) !in cfg.snapshot {
      assert IsRemoteWrite(actions.value[0]);
    }
  }

  /** A dry run makes no remote write. */
  lemma {:induction false} DryRunWritesNothing(entries: seq<Entry>, cfg: Config, env: Collaborators)
    requires cfg.dryRun
    ensures forall a :: a in RunEntries(entries, cfg, env).trace ==> !IsRemoteWrite(a)
  {
    if entries != [] {
      DryRunWritesNothing(entries[..|entries| - 1], cfg, env);
    }
  }

  /** The skip reports of a trace, in order. */
  function Skips(trace: seq<Action>): (r: seq<Action>)
    ensures forall a :: a in r <==> a in trace && a.AlreadyUploaded?
  {
    if trace == [] then []
    else (if trace[0].AlreadyUploaded? then [trace[0]] else []) + Skips(trace[1..])
  }

  lemma {:induction false} SkipsConcat(a: seq<Action>, b: seq<Action>)
    ensures Skips(a + b) == Skips(a) + Skips(b)
  {
    if a == [] {
      assert a + b == b;
    } else {
      assert (a + b)[0] == a[0] && (a + b)[1..] == a[1..] + b;
      SkipsConcat(a[1..], b);
    }
  }

  /** For one entry, a dry run does what the live run does minus the remote writes. */
  lemma DryRunEntry(entry: Entry, cfg: Config, env: Collaborators)
    ensures var dry := ProcessEntry(entry, cfg.(dryRun := true), env);
      var live := ProcessEntry(entry, cfg.(dryRun := false), env);
      dry.Ok? == live.Ok? && (dry.Err? ==> dry.error == live.error) && (dry.Ok? ==> dry.value == Skips(live.value))
  {
    var live := ProcessEntry(entry, cfg.(dryRun := false), env);
    if live.Ok? && |live.value| == 2 {
      assert Skips(live.value[1..]) == [];
    }
  }

  /** The run over `entries + [entry]`, one step further than the run over `entries`. */
  lemma RunStep(entries: seq<Entry>, entry: Entry, step: Entry -> Outcome)
    ensures var before := Run(entries, step);
      Run(entries + [entry], step) ==
        if before.abortedBy.Some? then before
        else match step(entry)
          case Err(e) => RunResult(before.trace, Some(e))
          case Ok(actions) => RunResult(before.trace + actions, None)
  {
    assert (entries + [entry])[..|entries|] == entries;
  }

  /**
    Runs compose: after a run over `a` that did not abort, the run over `b`
    goes on exactly as it would from scratch. No pass depends on an earlier
    one: the loop body is the same function of the entry throughout, since
    the listing of stored blobs is never refreshed.
  */
  lemma {:induction false} RunConcat(a: seq<Entry>, b: seq<Entry>, step: Entry -> Outcome)
    requires Run(a, step).abortedBy.None?
    ensures Run(a + b, step) == RunResult(Run(a, step).trace + Run(b, step).trace, Run(b, step).abortedBy)
  {
    if b == [] {
      assert a + b == a;
      assert Run(a, step).trace + [] == Run(a, step).trace;
    } else {
      var init, x := b[..|b| - 1], b[|b| - 1];
      assert b == init + [x];
      assert a + b == (a + init) + [x];
      RunConcat(a, init, step);
      RunStep(a + init, x, step);
      RunStep(init, x, step);
      var ta, ti := Run(a, step).trace, Run(init, step).trace;
      if Run(init, step).abortedBy.None? && step(x).Ok? {
        assert ta + ti + step(x).value == ta + (ti + step(x).value);
      }
    }
  }

  /**
    A dry run reports exactly the skips of the live run and ends the same way,
    and its trace holds nothing else.
  */
  lemma {:induction false} DryRunPreviewsLiveRun(entries: seq<Entry>, cfg: Config, env: Collaborators)
    ensures var dry := RunEntries(entries, cfg.(dryRun := true), env);
      var live := RunEntries(entries, cfg.(dryRun := false), env);
      dry.trace == Skips(live.trace) && dry.abortedBy == live.abortedBy
  {
    if entries != [] {
      var init, e := entries[..|entries| - 1], entries[|entries| - 1];
      assert entries == init + [e];
      DryRunPreviewsLiveRun(init, cfg, env);
      RunStep(init, e, Pass(cfg.(dryRun := true), env));
      RunStep(init, e, Pass(cfg.(dryRun := false), env));
      DryRunEntry(e, cfg, env);
      var live := RunEntries(init, cfg.(dryRun := false), env);
      var r := ProcessEntry(e, cfg.(dryRun := false), env);
      if live.abortedBy.None? && r.Ok? {
        SkipsConcat(live.trace, r.value);
      }
    }
  }

  /**
    A trace is well paired when every blob upload is immediately followed by
    the put of a record that references the uploaded blob, and every put
    immediately follows an upload.
  */
  ghost predicate WellPaired(trace: seq<Action>, env: Collaborators) {
    && (forall j :: 0 <= j < |trace| && trace[j].UploadBlob? ==>
          j + 1 < |trace| && trace[j + 1].PutRecord? &&
          trace[j + 1].record.blob == env.uploadBlob(trace[j].data, trace[j].mimeType))
    && (forall j :: 0 <= j < |trace| && trace[j].PutRecord? ==> 0 < j && trace[j - 1].UploadBlob?)
  }

  lemma WellPairedConcat(a: seq<Action>, b: seq<Action>, env: Collaborators)
    requires WellPaired(a, env) && WellPaired(b, env)
    ensures WellPaired(a + b, env)
  {
    var t := a + b;
    forall j | 0 <= j < |t| && t[j].UploadBlob?
      ensures j + 1 < |t| && t[j + 1].PutRecord? && t[j + 1].record.blob == env.uploadBlob(t[j].data, t[j].mimeType)
    {
      if j < |a| { assert t[j] == a[j] && t[j + 1] == a[j + 1]; }
      else { assert t[j] == b[j - |a|] && t[j + 1] == b[j + 1 - |a|]; }
    }
    forall j | 0 <= j < |t| && t[j].PutRecord?
      ensures 0 < j && t[j - 1].UploadBlob?
    {
      if j < |a| { assert t[j] == a[j] && t[j - 1] == a[j - 1]; }
      else {
        assert t[j] == b[j - |a|];
        if j > |a| { assert t[j - 1] == b[j - 1 - |a|]; }
      }
    }
  }

  /** Each stored file gets exactly one put, right after its upload, referencing that blob. */
  lemma UploadThenPut(entries: seq<Entry>, cfg: Config, env: Collaborators)
    ensures WellPaired(RunEntries(entries, cfg, env).trace, env)
  {
    forall x | ProcessEntry(x, cfg, env).Ok?
      ensures WellPaired(ProcessEntry(x, cfg, env).value, env)
    {
      EntryWellPaired(x, cfg, env);
    }
    forall a, b | WellPaired(a, env) && WellPaired(b, env)
      ensures WellPaired(a + b, env)
    {
      WellPairedConcat(a, b, env);
    }
    RunKeeps(entries, Pass(cfg, env), t => WellPaired(t, env));
  }

  /** The actions of one pass are well paired. */
  lemma EntryWellPaired(x: Entry, cfg: Config, env: Collaborators)
    requires ProcessEntry(x, cfg, env).Ok?
    ensures WellPaired(ProcessEntry(x, cfg, env).value, env)
  {
  }

  /**
    A property of traces that holds of the empty trace, is closed under
    concatenation and holds of every pass's actions holds of the whole run.
  */
  lemma {:induction false} RunKeeps(entries: seq<Entry>, step: Entry -> Outcome, keeps: seq<Action> -> bool)
    requires keeps([])
    requires forall a, b :: keeps(a) && keeps(b) ==> keeps(a + b)
    requires forall x :: step(x).Ok? ==> keeps(step(x).value)
    ensures keeps(Run(entries, step).trace)
  {
    if entries != [] {
      var init, x := entries[..|entries| - 1], entries[|entries| - 1];
      RunKeeps(init, step, keeps);
      var before := Run(init, step);
      if before.abortedBy.None? && step(x).Ok? {
        assert keeps(before.trace + step(x).value);
      }
    }
  }

  /** The fields of the record put for `entry`, as lines 96-121 build them. */
  ghost predicate DescribesEntry(put: Action, entry: Entry, cfg: Config, env: Collaborators)
    requires put.PutRecord?
  {
    var rec := put.record;
    && put.collection == Collection && rec.recordType == Collection
    && Rkey.FilepathToRkey(entry.path) == Ok(put.rkey)
    && rec.blob == env.uploadBlob(StoredBytes(entry, cfg.passphrase, env), DeclaredType(entry, cfg.passphrase, env))
    && rec.checksum == Checksum(ChecksumAlgo, env.sha256(rec.blob))
    && rec.file.name == entry.path + AgeSuffix
    && rec.file.size == rec.blob.size
    && (Encrypting(cfg.passphrase) ==> rec.file.mimeType == AgeMimeType && DeclaredType(entry, cfg.passphrase, env) == Some(AgeMimeType))
    && (!Encrypting(cfg.passphrase) ==> rec.file.mimeType == rec.blob.mimeType)
    && rec.finger == Finger(FingerType, FingerApp)
  }

  /**
    Every put of a run stores a record for some listed file: its key is that
    file's `filepathToRkey`, its name the path plus `.age` whether or not
    encryption is on, and its type `application/vnd.age` when encrypting.
  */
  lemma {:induction false} PutsDescribeEntries(entries: seq<Entry>, cfg: Config, env: Collaborators)
    ensures forall a :: a in RunEntries(entries, cfg, env).trace && a.PutRecord? ==>
      exists e :: e in entries && !e.isDirectory && DescribesEntry(a, e, cfg, env)
  {
    if entries != [] {
      var init := entries[..|entries| - 1];
      var e := entries[|entries| - 1];
      PutsDescribeEntries(init, cfg, env);
      var r := ProcessEntry(e, cfg, env);
      forall a | a in RunEntries(entries, cfg, env).trace && a.PutRecord?
        ensures exists e' :: e' in entries && !e'.isDirectory && DescribesEntry(a, e', cfg, env)
      {
        if a in RunEntries(init, cfg, env).trace {
          var e' :| e' in init && !e'.isDirectory && DescribesEntry(a, e', cfg, env);
          assert e' in entries;
        } else {
          assert r.Ok? && a in r.value;
          EntryPutDescribes(e, a, cfg, env);
        }
      }
    }
  }

  /** The put one pass of the loop body makes describes that pass's entry. */
  lemma EntryPutDescribes(e: Entry, a: Action, cfg: Config, env: Collaborators)
    requires ProcessEntry(e, cfg, env).Ok? && a in ProcessEntry(e, cfg, env).value && a.PutRecord?
    ensures !e.isDirectory && DescribesEntry(a, e, cfg, env)
  {
    var key := Rkey.FilepathToRkey(e.path);
    var file := StoredBytes(e, cfg.passphrase, env);
    assert !e.isDirectory && key.Ok? && env.createCid(file) !in cfg.snapshot && !cfg.dryRun;
    var blob := env.uploadBlob(file, DeclaredType(e, cfg.passphrase, env));
    assert a == PutRecord(Collection, key.value, MakeRecord(e.path, blob, cfg.passphrase, env));
  }

  /**
    The snapshot is taken once and never added to: two new files with the same
    bytes in one run are both uploaded, with the same data when not encrypting.
  */
  lemma SameNewContentUploadedTwice(e1: Entry, e2: Entry, cfg: Config, env: Collaborators)
    requires !e1.isDirectory && !e2.isDirectory && e1.contents == e2.contents
    requires Rkey.FilepathToRkey(e1.path).Ok? && Rkey.FilepathToRkey(e2.path).Ok?
    requires env.createCid(StoredBytes(e1, cfg.passphrase, env)) !in cfg.snapshot
    requires env.createCid(StoredBytes(e2, cfg.passphrase, env)) !in cfg.snapshot
    requires !cfg.dryRun
    ensures var t := RunEntries([e1, e2], cfg, env).trace;
      |t| == 4 && t[0].UploadBlob? && t[2].UploadBlob? &&
      (!Encrypting(cfg.passphrase) ==> t[0].data == t[2].data == e1.contents)
  {
    var a1, a2 := ProcessEntry(e1, cfg, env), ProcessEntry(e2, cfg, env);
    assert a1.Ok? && |a1.value| == 2 && a1.value[0] == UploadBlob(StoredBytes(e1, cfg.passphrase, env), DeclaredType(e1, cfg.passphrase, env));
    assert a2.Ok? && |a2.value| == 2 && a2.value[0] == UploadBlob(StoredBytes(e2, cfg.passphrase, env), DeclaredType(e2, cfg.passphrase, env));
    RunStep([], e1, Pass(cfg, env));
    RunStep([e1], e2, Pass(cfg, env));
    assert [] + [e1] == [e1] && [e1] + [e2] == [e1, e2];
  }

  /**
    Without encryption, a file uploaded by one run is skipped by the next run
    over the same file, whose listing now holds its content id.
  */
  lemma SecondRunSkips(first: Entry, second: Entry, cfg: Config, env: Collaborators)
    requires !first.isDirectory && Rkey.FilepathToRkey(first.path).Ok? && !cfg.dryRun
    requires second == first.(entropy := second.entropy) && !Encrypting(cfg.passphrase)
    requires env.createCid(StoredBytes(first, cfg.passphrase, env)) !in cfg.snapshot
    ensures var t := RunEntries([first], cfg, env).trace; |t| == 2 && t[0].UploadBlob? && t[1].PutRecord?
    ensures var cid := env.createCid(StoredBytes(first, cfg.passphrase, env));
      RunEntries([second], cfg.(snapshot := cfg.snapshot + {cid}), env).trace == [AlreadyUploaded(second.path)]
  {
    var cfg' := cfg.(snapshot := cfg.snapshot + {env.createCid(StoredBytes(first, cfg.passphrase, env))});
    RunSingle(first, Pass(cfg, env));
    RunSingle(second, Pass(cfg', env));
    assert StoredBytes(second, cfg.passphrase, env) == first.contents;
    assert ProcessEntry(second, cfg', env) == Ok([AlreadyUploaded(second.path)]);
  }

  /** The run over a one-entry listing is that entry's pass. */
  lemma RunSingle(x: Entry, step: Entry -> Outcome)
    ensures Run([x], step) == match step(x)
      case Err(e) => RunResult([], Some(e))
      case Ok(actions) => RunResult(actions, None)
  {
    assert [x][..0] == [];
  }

  /**
    With a passphrase the content id is that of a fresh ciphertext: the next
    run over the same file uploads and puts it again whenever the new
    ciphertext's id is not listed, even though the last run stored the file.
  */
  lemma EncryptedRerunUploadsAgain(first: Entry, second: Entry, cfg: Config, env: Collaborators)
    requires !first.isDirectory && Rkey.FilepathToRkey(first.path).Ok? && !cfg.dryRun
    requires second == first.(entropy := second.entropy) && Encrypting(cfg.passphrase)
    requires env.createCid(StoredBytes(first, cfg.passphrase, env)) !in cfg.snapshot
    requires env.createCid(StoredBytes(second, cfg.passphrase, env))
             !in cfg.snapshot + {env.createCid(StoredBytes(first, cfg.passphrase, env))}
    ensures var cid := env.createCid(StoredBytes(first, cfg.passphrase, env));
      var t := RunEntries([second], cfg.(snapshot := cfg.snapshot + {cid}), env).trace;
      |t| == 2 && t[0] == UploadBlob(env.encrypt(first.contents, cfg.passphrase.value, second.entropy), Some(AgeMimeType))
      && t[1].PutRecord?
  {
    var cfg' := cfg.(snapshot := cfg.snapshot + {env.createCid(StoredBytes(first, cfg.passphrase, env))});
    RunSingle(second, Pass(cfg', env));
    assert ProcessEntry(second, cfg', env).Ok?;
  }
}
