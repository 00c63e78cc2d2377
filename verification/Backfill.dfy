/** The one-off canonical repair of `scripts/backfill_missing_prelude.py`:
    commit, then progress, then receipt, with a crash possible between any two
    steps, and other writers possibly moving the project head. The commit
    itself is the transaction of `src/novel_agent/services/commits.py`. */
module Backfill {
  import opened Wrappers

  type Commit = string
  type Bytes = seq<bv8>

  /** The progress manifest: what the script reads and changes of it. */
  datatype Progress = Progress(chapter: Option<int>, lastCommit: Option<Commit>, paused: bool, others: Bytes)

  /** The recorded result of a commit request. */
  datatype Recorded = Accepted(commit: Commit, at: nat) | Conflicted | Rejected

  datatype Outcome = Done | Raised | Crashed

  /** Where a run may be interrupted outside a file write. */
  datatype Point = BeforeCommit | AfterCommit | BeforeProgress | BeforeReceipt

  /** How one file write ends: NoWrite is an error; the three after it
      are crashes, with a torn temporary file, before the rename, or after it. */
  datatype Ending = Complete | NoWrite | TornAt(length: nat) | NotRenamed | AfterRename

  datatype Write = Write(temporary: string, ending: Ending)

  /** Everything outside the script that decides how one run goes. `inputsFit`
      stands for the checks on the pinned benchmark and on the canonical
      documents, `valid` for those of the commit service on the request;
      `moves` are the heads that other writers set at the four points where
      they may. */
  datatype Course = Course(
    inputsFit: bool, valid: bool, at: nat, crash: Option<Point>, progress: Write, receipt: Write,
    moves: (Option<Commit>, Option<Commit>, Option<Commit>, Option<Commit>))

  predicate Quiet(c: Course) {
    c.moves == (None, None, None, None)
  }

  /** The inputs and the request are in order, and nobody else moves the head. */
  predicate Fits(c: Course) {
    c.inputsFit && c.valid && Quiet(c)
  }

  /** Serialisation; only that progress can be read back matters. */
  datatype Codec = Codec(write: Progress -> Bytes, read: Bytes -> Option<Progress>, receipt: Recorded -> Bytes)

  ghost predicate RoundTrips(codec: Codec) {
    forall p :: codec.read(codec.write(p)) == Some(p)
  }

  class Project {
    const codec: Codec
    const base: Commit             // --expected-base-commit
    const target: Commit           // the id of the repaired manifest, a function of its content
    const progressPath: string
    const receiptPath: string
    const alone: bool              // assumption: nobody else moves the project head

    var head: Commit
    var row: Option<Recorded>      // the result recorded under the idempotency key
    var files: map<string, Bytes>
    ghost var accepted: nat        // how often the repair was committed
    ghost var original: Bytes      // the progress manifest before the first run
    ghost var before: Progress

    constructor (codec: Codec, base: Commit, target: Commit, progressPath: string, receiptPath: string, alone: bool,
                 files: map<string, Bytes>, before: Progress)
      requires RoundTrips(codec) && base != target && progressPath != receiptPath
      requires progressPath in files && receiptPath !in files
      requires codec.read(files[progressPath]) == Some(before) && before.lastCommit == Some(base)
      ensures Inv() && head == base && row == None && accepted == 0 && this.files == files
      ensures Ready(Some(before)) ==> Fresh()
      ensures this.base == base && this.target == target && this.alone == alone
      ensures this.progressPath == progressPath && this.receiptPath == receiptPath
    {
      this.codec, this.base, this.target, this.alone := codec, base, target, alone;
      this.progressPath, this.receiptPath := progressPath, receiptPath;
      this.head, this.row, this.files := base, None, files;
      this.accepted, this.original, this.before := 0, files[progressPath], before;
    }

    /** The progress manifest as the script rewrites it. */
    function Repaired(p: Progress): Progress {
      p.(lastCommit := Some(target), paused := false)
    }

    ghost predicate Progressed()
      reads this`files, this`before
    {
      progressPath in files && files[progressPath] == codec.write(Repaired(before))
    }

    /** What holds after any number of runs, however they ended. */
    ghost predicate Inv()
      reads this
    {
      && RoundTrips(codec) && base != target && progressPath != receiptPath
      && codec.read(original) == Some(before) && before.lastCommit == Some(base)
      // at most one commit, recorded under its key
      && accepted == (if row.Some? && row.value.Accepted? then 1 else 0)
      && (row.Some? && row.value.Accepted? ==> row.value.commit == target)
      // the progress manifest is its old or its complete new content
      && progressPath in files && (files[progressPath] == original || Progressed())
      && (Progressed() ==> accepted == 1)
      // a receipt is complete, and implies that progress names the commit
      && (receiptPath in files ==> Progressed() && files[receiptPath] == codec.receipt(row.value))
      // the head
      && (head == base ==> accepted == 0)
      && (alone ==> head == if accepted == 1 then target else base)
    }

    /** What progress reads as, once the repair is recorded in it. */
    ghost predicate ProgressNames(p: Option<Progress>)
      reads this`before
    {
      p == Some(Progress(before.chapter, Some(target), false, before.others))
    }

    /** Progress reads as before the first run, naming the base, or as naming the new
        commit and not paused, with all else as before. A receipt, which records the
        accepted result, means the second, and that the commit was made. */
    lemma ReceiptMeans()
      requires Inv()
      ensures progressPath in files && (codec.read(files[progressPath]) == Some(before) || ProgressNames(codec.read(files[progressPath])))
      ensures before.lastCommit == Some(base) && target != base
      ensures ProgressNames(codec.read(files[progressPath])) ==> accepted == 1
      ensures receiptPath in files ==>
        && ProgressNames(codec.read(files[progressPath]))
        && row.Some? && row.value.Accepted? && row.value.commit == target && files[receiptPath] == codec.receipt(row.value)
    {
      assert codec.read(codec.write(Repaired(before))) == Some(Repaired(before));
    }

    /** The write has a fresh temporary name and goes through. */
    predicate Clean(w: Write)
      reads this`files
    {
      w.ending == Complete && w.temporary !in files && !IsTarget(w.temporary)
    }

    /** Other writers commit on top of the head; nobody goes back to the base. */
    method Others(move: Option<Commit>)
      requires Inv()
      modifies this`head
      ensures Inv() && (alone || move.None? ==> head == old(head)) && (old(head) != base ==> head != base)
      ensures !alone && move.Some? && move.value != base ==> head == move.value
    {
      if !alone && move.Some? && move.value != base {
        head := move.value;
      }
    }

    /** `CommitService.commit`: one transaction, idempotent under its key. */
    method CommitOnce(valid: bool, at: nat) returns (result: Recorded)
      requires Inv()
      modifies this`head, this`row, this`accepted
      ensures Inv() && row == Some(result)
      ensures old(row).Some? ==> row == old(row) && head == old(head) && accepted == old(accepted)
      ensures old(row).None? ==>
        if valid && old(head) == base then result == Accepted(target, at) && head == target && accepted == old(accepted) + 1
        else result == (if valid then Conflicted else Rejected) && head == old(head) && accepted == old(accepted)
    {
      if row.Some? {
        return row.value;
      }
      if !valid {
        result := Rejected;
      } else if head != base {
        result := Conflicted;
      } else {
        head := target;
        accepted := accepted + 1;
        result := Accepted(target, at);
      }
      row := Some(result);
    }

    predicate IsTarget(path: string) {
      path == progressPath || path == receiptPath
    }

    /** Write through a temporary file and an atomic rename, as both
        `_atomic_json_write` and `_write_immutable_json` do. Until the rename no
        target is touched; torn bytes only ever sit in the temporary file. */
    method AtomicWrite(path: string, content: Bytes, w: Write) returns (outcome: Outcome)
      requires IsTarget(path)
      modifies this`files
      ensures path != progressPath ==> SameFile(old(files), files, progressPath)
      ensures path != receiptPath ==> SameFile(old(files), files, receiptPath)
      ensures SameFile(old(files), files, path) || (path in files && files[path] == content)
      ensures outcome == Done ==> path in files && files[path] == content
      ensures old(Clean(w)) ==> outcome == Done && files == old(files)[path := content]
    {
      if w.ending == NoWrite || w.temporary in files || IsTarget(w.temporary) {
        return Raised;
      }
      if w.ending.TornAt? && w.ending.length <= |content| {
        files := files[w.temporary := content[..w.ending.length]];
        return Crashed;
      }
      files := files[w.temporary := content];
      if w.ending == NotRenamed || w.ending.TornAt? {
        return Crashed;
      }
      ghost var was := files;
      files := (files - {w.temporary})[path := files[w.temporary]];
      return if w.ending == AfterRename then Crashed else Done;
    }

    /** `_write_immutable_json` */
    method WriteReceipt(content: Bytes, w: Write) returns (outcome: Outcome)
      modifies this`files
      ensures SameFile(old(files), files, progressPath) || progressPath == receiptPath
      ensures SameFile(old(files), files, receiptPath) ||
        (receiptPath !in old(files) && receiptPath in files && files[receiptPath] == content)
      ensures outcome == Done ==> receiptPath in files && files[receiptPath] == content
      ensures old(Clean(w)) && receiptPath !in old(files) ==> outcome == Done
    {
      if receiptPath in files {
        return if files[receiptPath] != content then Raised else Done;
      }
      outcome := AtomicWrite(receiptPath, content, w);
    }

    /** Nothing was recorded under the key, and head and progress name the base. */
    predicate Fresh()
      reads this`files, this`head, this`row
    {
      && row.None? && head == base
      && progressPath in files && Ready(codec.read(files[progressPath]))
    }

    predicate Ready(progress: Option<Progress>) {
      && progress.Some? && progress.value.chapter.Some? && progress.value.chapter.value >= 1
      && progress.value.lastCommit == Some(base)
    }

    /** One run of the script. A run in which nothing goes wrong is Done exactly
        from a fresh state, and of the runs that find everything in order only
        one that crashes before its commit leaves the state fresh; a run that
        crashes right after its commit leaves
        progress and receipt as they were, one that crashes before the receipt
        leaves no receipt. */
    method RunOnce(c: Course) returns (outcome: Outcome)
      requires Inv()
      modifies this`head, this`row, this`files, this`accepted
      ensures Inv() && old(accepted) <= accepted
      ensures receiptPath in old(files) ==> SameFile(old(files), files, receiptPath)
      ensures outcome == Done ==> receiptPath in files && accepted == 1
      ensures receiptPath in files ==> ProgressNames(codec.read(files[progressPath]))
      ensures !old(Fresh()) ==>
        && outcome != Done
        && SameFile(old(files), files, progressPath) && SameFile(old(files), files, receiptPath)
      ensures old(row).Some? ==> row == old(row)
      ensures receiptPath in files && receiptPath !in old(files) ==> old(accepted) == 0 && accepted == 1
      ensures old(head) != base ==> head != base
      ensures Fits(c) && c.crash.None? && old(Clean(c.progress)) && old(Clean(c.receipt)) ==>
        (outcome == Done <==> old(Fresh()))
      ensures Fits(c) && old(Fresh()) ==> (Fresh() <==> c.crash == Some(BeforeCommit))
      ensures Fits(c) && c.crash == Some(AfterCommit) && old(Fresh()) ==>
        && outcome == Crashed && accepted == 1 && receiptPath !in files
        && files == old(files) && !Progressed()
      ensures Fits(c) && c.crash == Some(BeforeReceipt) && old(Fresh()) && old(Clean(c.progress)) ==>
        outcome == Crashed && accepted == 1 && Progressed() && receiptPath !in files
    {
      hide Fresh, Clean, Fits, ProgressNames;
      outcome := RunSteps(c);
      ReceiptNames();
    }

    /** The steps of a run. */
    method RunSteps(c: Course) returns (outcome: Outcome)
      requires Inv()
      modifies this`head, this`row, this`files, this`accepted
      ensures Inv() && old(accepted) <= accepted
      ensures receiptPath in old(files) ==> SameFile(old(files), files, receiptPath)
      ensures outcome == Done ==> receiptPath in files && accepted == 1
      ensures !old(Fresh()) ==>
        && outcome != Done
        && SameFile(old(files), files, progressPath) && SameFile(old(files), files, receiptPath)
      ensures old(row).Some? ==> row == old(row)
      ensures receiptPath in files && receiptPath !in old(files) ==> old(accepted) == 0 && accepted == 1
      ensures old(head) != base ==> head != base
      ensures Fits(c) && c.crash.None? && old(Clean(c.progress)) && old(Clean(c.receipt)) ==>
        (outcome == Done <==> old(Fresh()))
      ensures Fits(c) && old(Fresh()) ==> (Fresh() <==> c.crash == Some(BeforeCommit))
      ensures Fits(c) && c.crash == Some(AfterCommit) && old(Fresh()) ==>
        && outcome == Crashed && accepted == 1 && receiptPath !in files
        && files == old(files) && !Progressed()
      ensures Fits(c) && c.crash == Some(BeforeReceipt) && old(Fresh()) && old(Clean(c.progress)) ==>
        outcome == Crashed && accepted == 1 && Progressed() && receiptPath !in files
    {
      var progress := codec.read(files[progressPath]);
      if progress.None? || progress.value.chapter.None? || progress.value.chapter.value < 1 {
        return Raised;
      }
      if progress.value.lastCommit != Some(base) {
        return Raised;
      }
      if !c.inputsFit {
        return Raised;
      }
      Others(c.moves.0);
      if head != base {
        return Raised;
      }
      if c.crash == Some(BeforeCommit) {
        return Crashed;
      }
      Others(c.moves.1);
      var result := CommitOnce(c.valid, c.at);
      if c.crash == Some(AfterCommit) {
        return Crashed;
      }
      Others(c.moves.2);
      if !result.Accepted? || head != result.commit {
        return Raised;
      }
      if c.crash == Some(BeforeProgress) {
        return Crashed;
      }
      outcome := AtomicWrite(progressPath, codec.write(progress.value.(lastCommit := Some(result.commit), paused := false)), c.progress);
      if outcome != Done {
        return;
      }
      Others(c.moves.3);
      if c.crash == Some(BeforeReceipt) {
        return Crashed;
      }
      outcome := WriteReceipt(codec.receipt(result), c.receipt);
    }

    lemma ReceiptNames()
      requires Inv()
      ensures receiptPath in files ==> ProgressNames(codec.read(files[progressPath]))
    {
      ReceiptMeans();
    }

    /** Any number of runs, crashed or not. Whatever happens in between, the
        invariant holds at the end; a receipt, once written, never changes; and
        once anything was recorded under the key, no later run is Done or
        changes progress or receipt: what a crash left undone stays undone. */
    method Runs(courses: seq<Course>) returns (outcomes: seq<Outcome>)
      requires Inv()
      modifies this`head, this`row, this`files, this`accepted
      ensures Inv() && old(accepted) <= accepted <= 1 && |outcomes| == |courses|
      ensures receiptPath in old(files) ==> SameFile(old(files), files, receiptPath)
      ensures old(row).Some? ==>
        && row == old(row) && (forall n :: 0 <= n < |courses| ==> outcomes[n] != Done)
        && SameFile(old(files), files, progressPath) && SameFile(old(files), files, receiptPath)
      ensures forall m, n :: 0 <= m < n < |courses| && outcomes[m] == Done ==> outcomes[n] != Done
      ensures receiptPath in files ==> ProgressNames(codec.read(files[progressPath]))
      ensures (exists n :: 0 <= n < |courses| && outcomes[n] == Done) ==> receiptPath in files
      ensures |courses| > 0 && Fits(courses[0]) && courses[0].crash.None? && old(Fresh() && Clean(courses[0].progress) && Clean(courses[0].receipt)) ==>
        outcomes[0] == Done
    {
      hide Fresh, Clean, Fits, ProgressNames;
      outcomes := [];
      for n := 0 to |courses|
        invariant Inv() && old(accepted) <= accepted && |outcomes| == n
        invariant receiptPath in old(files) ==> SameFile(old(files), files, receiptPath)
        invariant old(row).Some? ==>
          && row == old(row) && (forall m :: 0 <= m < n ==> outcomes[m] != Done)
          && SameFile(old(files), files, progressPath) && SameFile(old(files), files, receiptPath)
        invariant forall m :: 0 <= m < n && outcomes[m] == Done ==> row.Some? && receiptPath in files
        invariant n == 0 ==> files == old(files) && head == old(head) && row == old(row)
        invariant n > 0 && Fits(courses[0]) && courses[0].crash.None? && old(Fresh() && Clean(courses[0].progress) && Clean(courses[0].receipt)) ==>
          outcomes[0] == Done
        invariant forall m, k :: 0 <= m < k < n && outcomes[m] == Done ==> outcomes[k] != Done
      {
        RecordedIsNotFresh();
        ReceiptNames();
        var outcome := RunOnce(courses[n]);
        outcomes := outcomes + [outcome];
      }
      ReceiptNames();
    }

    lemma RecordedIsNotFresh()
      ensures row.Some? ==> !Fresh()
    {
    }
  }

  /** From any project that a run could complete, a run that crashes right after
      its commit leaves one that no number of further runs completes. */
  method CrashStrands(project: Project, crashed: Course, later: seq<Course>) returns (first: Outcome, outcomes: seq<Outcome>)
    requires project.Inv() && project.Fresh()
    requires Fits(crashed) && crashed.crash == Some(AfterCommit)
    modifies project`head, project`row, project`files, project`accepted
    ensures project.Inv() && project.accepted == 1
    ensures first == Crashed && |outcomes| == |later| && forall n :: 0 <= n < |later| ==> outcomes[n] != Done
    ensures SameFile(old(project.files), project.files, project.progressPath)
    ensures project.receiptPath !in project.files
  {
    hide Project.Fresh, Fits;
    first := project.RunOnce(crashed);
    outcomes := project.Runs(later);
  }

  /** Such a project exists: a new one, and one crash. */
  method StrandedProject(codec: Codec, later: seq<Course>) returns (project: Project, outcomes: seq<Outcome>)
    requires RoundTrips(codec)
    ensures project.accepted == 1 && project.receiptPath !in project.files
    ensures project.head == project.target
    ensures |outcomes| == |later| && forall n :: 0 <= n < |later| ==> outcomes[n] != Done
  {
    var before := Progress(Some(1), Some("base"), true, []);
    project := new Project(codec, "base", "target", "progress", "receipt", true, map["progress" := codec.write(before)], before);
    var write := Write("temporary", Complete);
    var crashed := Course(true, true, 0, Some(AfterCommit), write, write, (None, None, None, None));
    var first;
    first, outcomes := CrashStrands(project, crashed, later);
  }

  /** The file is absent in both states, or present with the same content. */
  predicate SameFile(a: map<string, Bytes>, b: map<string, Bytes>, name: string) {
    (name in a <==> name in b) && (name in a ==> a[name] == b[name])
  }
}
