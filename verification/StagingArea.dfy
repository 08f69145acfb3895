/**
 `run_stages` as the imperative program it is: stage by stage it updates the staging area
 in place, returning early on the first error. Each stage is proved against the plan of
 the same name; `log` records every atomic operation, so a crash after k operations
 leaves exactly the disk that the first k entries of the log produce.
 */
module StagingAreas {
  import opened Wrappers
  import opened Domain
  import opened Archive
  import opened Manifest
  import opened Snapshot

  /** The plan from a stage that goes on is its own operations followed by the plan from the next stage. */
  lemma PlanAfter(c: Codec, q: Request, s: Stage, d: Disk, plan: Plan, ops: seq<Op>, next: Stage, d1: Disk,
          before: seq<Op>)
      returns (rest: Plan)
    requires plan == PlanFrom(c, q, s, d) && RunStage(c, q, s, d) == Go(ops, next) && d1 == ApplyAll(ops, d)
    ensures rest == PlanFrom(c, q, next, d1) && plan.result == rest.result
    ensures ApplyAll(plan.ops, d) == ApplyAll(rest.ops, d1)
    ensures before + plan.ops == before + ops + rest.ops
  {
    rest := PlanFrom(c, q, next, d1);
    ApplyAllConcat(ops, rest.ops, d);
    assert before + (ops + rest.ops) == before + ops + rest.ops;
  }

  /** A whole run is the removal of any partial download followed by the plan from the discard stage. */
  lemma RunAfter(c: Codec, q: Request, d: Disk, d1: Disk, before: seq<Op>) returns (rest: Plan)
    requires d1 == Apply(DeletePart, d)
    ensures rest == PlanFrom(c, q, Discarding(FindResumePoint(c, q.faults.missed, d1)), d1)
    ensures rest.result == RunPlan(c, q, d).result
    ensures ApplyAll(RunPlan(c, q, d).ops, d) == ApplyAll(rest.ops, d1)
    ensures before + RunPlan(c, q, d).ops == before + [DeletePart] + rest.ops
  {
    rest := PlanFrom(c, q, Discarding(FindResumePoint(c, q.faults.missed, d1)), d1);
    ApplyAllSnoc([], DeletePart, d);
    ApplyAllConcat([DeletePart], rest.ops, d);
    assert before + ([DeletePart] + rest.ops) == before + [DeletePart] + rest.ops;
  }

  class StagingArea {
    var part: bool
    var zip: Option<ZipFile>
    var extraction: Option<Files>
    var parquet: Option<Files>
    var published: Option<FinalDir>
    ghost var log: seq<Op>

    function View(): Disk
      reads this
    {
      Disk(part, zip, extraction, parquet, published)
    }

    /** A staging area as a run finds it on disk. */
    constructor (d: Disk)
      ensures View() == d && log == []
    {
      part, zip, extraction, parquet, published := d.part, d.zip, d.extraction, d.parquet, d.published;
      log := [];
    }

    /** One atomic disk operation. */
    method Perform(op: Op)
      modifies this
      ensures View() == Apply(op, old(View()))
      ensures log == old(log) + [op]
    {
      match op {
        case WritePart => part := true;
        case DeletePart => part := false;
        case PromotePart(archive) => part, zip := false, Some(archive);
        case DeleteZip => zip := None;
        case MakeExtraction => extraction := Some(map[]);
        case WriteMember(name, content) =>
          if extraction.Some? { extraction := Some(extraction.value[name := content]); }
        case DeleteExtraction => extraction := None;
        case MakeParquet => parquet := Some(map[]);
        case WriteParquet(name, content) =>
          if parquet.Some? { parquet := Some(parquet.value[name := content]); }
        case DeleteParquet => parquet := None;
        case DeleteFinal => published := None;
        case RenameToFinal =>
          if parquet.Some? && published.None? {
            published := Some(FinalDir(parquet.value, None));
            parquet := None;
          }
        case WriteSidecar(meta) =>
          if published.Some? { published := Some(published.value.(sidecar := Some(meta))); }
      }
      log := log + [op];
    }

    /** Performs a fixed list of clean-up operations in order. */
    method PerformAll(ops: seq<Op>)
      modifies this
      ensures View() == ApplyAll(ops, old(View()))
      ensures log == old(log) + ops
    {
      for i := 0 to |ops|
        invariant View() == ApplyAll(ops[..i], old(View()))
        invariant log == old(log) + ops[..i]
      {
        Perform(ops[i]);
        ApplyAllSnoc(ops[..i], ops[i], old(View()));
        assert ops[..i + 1] == ops[..i] + [ops[i]];
      }
      assert ops[..|ops|] == ops;
    }

    /** Clean-up after `done` operations of a failing stage. */
    method Abandon(ghost start: Disk, ghost done: seq<Op>, tail: seq<Op>)
      requires View() == ApplyAll(done, start)
      modifies this
      ensures View() == ApplyAll(done + tail, start) && log == old(log) + tail
    {
      PerformAll(tail);
      ApplyAllConcat(done, tail, start);
    }

    /** The operations since `before` are those of this stage, and so is the verdict. */
    twostate predicate Did(run: StageRun)
      reads this
    {
      log == old(log) + run.ops && View() == ApplyAll(run.ops, old(View()))
    }

    /** The operations since `before` are those of the whole plan. */
    twostate predicate DidPlan(plan: Plan)
      reads this
    {
      log == old(log) + plan.ops && View() == ApplyAll(plan.ops, old(View()))
    }

    /** Discards exactly what is about to be redone. */
    method Discard(q: Request, resume: ResumePoint) returns (r: Result<(), PipelineError>)
      modifies this
      ensures Did(DiscardStage(q, resume, old(View())))
      ensures var run := DiscardStage(q, resume, old(View()));
        if r.Ok? then run == Go(run.ops, Fetching(resume)) else run == Stop(run.ops, r.error)
    {
      ghost var ops := [];
      if NeedExtract(resume) && extraction.Some? {
        if q.faults.dropExtraction {
          return Err(IoFailed);
        }
        Perform(DeleteExtraction);
        ops := [DeleteExtraction];
      }
      if NeedConvert(resume) && parquet.Some? {
        if q.faults.dropParquet {
          return Err(IoFailed);
        }
        Perform(DeleteParquet);
        ApplyAllSnoc(ops, DeleteParquet, old(View()));
      }
      r := Ok(());
    }

    /** Stage 2: download, or take over the archive already there. */
    method Fetch(c: Codec, q: Request, resume: ResumePoint) returns (r: Result<DownloadOutcome, PipelineError>)
      modifies this
      ensures Did(FetchStage(c, q, resume))
      ensures var run := FetchStage(c, q, resume);
        if r.Ok? then run == Go(run.ops, Verifying(resume, r.value)) else run == Stop(run.ops, r.error)
    {
      if !NeedDownload(resume) {
        return Ok(resume.outcome);
      }
      match q.reply {
        case Refused => r := Err(DownloadFailed);
        case Cut =>
          PerformAll([WritePart, DeletePart]);
          r := Err(DownloadFailed);
        case Complete(archive, etag, lastModified) =>
          if q.faults.promote {
            PerformAll([WritePart]);
            return Err(DownloadFailed);
          }
          PerformAll([WritePart, PromotePart(archive)]);
          r := Ok(DownloadOutcome(c.size(archive), c.sha256(archive), etag, lastModified));
      }
    }

    /** Stage 3: the upstream-hash check; a mismatch drops the archive. */
    method Verify(q: Request, resume: ResumePoint, outcome: DownloadOutcome) returns (r: Result<(), PipelineError>)
      modifies this
      ensures Did(VerifyStage(q, resume, outcome))
      ensures var hash := q.resource.upstreamHash;
        r.Ok? <==> hash.None? || !SixtyFourHex(hash.value) || EqualUpToCase(hash.value, outcome.sha256)
      ensures View() == if r.Ok? then old(View()) else old(View()).(zip := None)
      ensures var run := VerifyStage(q, resume, outcome);
        if r.Ok? then run == Go(run.ops, Extracting(resume, outcome)) else run == Stop(run.ops, r.error)
    {
      HashAcceptedMeans(q.resource.upstreamHash, outcome.sha256);
      if HashAccepted(q.resource.upstreamHash, outcome.sha256) {
        r := Ok(());
      } else {
        PerformAll([DeleteZip]);
        r := Err(HashMismatch);
      }
    }

    /** Writes the entries in archive order. */
    method WriteMembers(entries: seq<Entry>)
      requires extraction.Some?
      modifies this
      ensures log == old(log) + MemberWrites(entries)
      ensures View() == ApplyAll(MemberWrites(entries), old(View()))
    {
      ghost var ops := MemberWrites(entries);
      for i := 0 to |entries|
        invariant View() == ApplyAll(ops[..i], old(View()))
        invariant log == old(log) + ops[..i]
      {
        Perform(WriteMember(entries[i].name, entries[i].content));
        ApplyAllSnoc(ops[..i], ops[i], old(View()));
        assert ops[..i + 1] == ops[..i] + [ops[i]];
      }
      assert ops[..|ops|] == ops;
    }

    /** Extraction proper: nothing of an unsound archive is written, and the result is checked on disk. */
    method ValidateAndExtract(c: Codec, q: Request, archive: ZipFile) returns (ok: bool)
      requires extraction == Some(map[])
      modifies this
      ensures log == old(log) + MemberWrites(WrittenEntries(c.lists, archive, q.faults))
      ensures View() == ApplyAll(MemberWrites(WrittenEntries(c.lists, archive, q.faults)), old(View()))
      ensures ok <==> ExtractSucceeds(c.lists, archive, q.faults)
    {
      if archive.Unreadable? {
        return false;
      }
      var sound := ValidateMembers(c.lists, archive.entries);
      if sound.Err? {
        return false;
      }
      if ExtractFails(archive.entries, q.faults) {
        WriteMembers(archive.entries[..q.faults.extractAt.value]);
        return false;
      }
      ghost var before := View();
      WriteMembers(archive.entries);
      FullExtractionOnDisk(archive.entries, before);
      var present := VerifyExtractedMembers(c.lists, extraction.value);
      ok := present.Ok?;
    }

    /** A fresh extraction directory, filled from the archive if there is one. */
    method ExtractArchive(c: Codec, q: Request) returns (ok: bool, ghost ops: seq<Op>)
      modifies this
      ensures log == old(log) + ops && View() == ApplyAll(ops, old(View()))
      ensures ok <==> old(zip).Some? && ExtractSucceeds(c.lists, old(zip).value, q.faults)
      ensures ops == [MakeExtraction] + if old(zip).None? then []
        else MemberWrites(WrittenEntries(c.lists, old(zip).value, q.faults))
    {
      Perform(MakeExtraction);
      ApplyAllSnoc([], MakeExtraction, old(View()));
      ops, ok := [MakeExtraction], false;
      if zip.Some? {
        ghost var writes := MemberWrites(WrittenEntries(c.lists, zip.value, q.faults));
        ok := ValidateAndExtract(c, q, zip.value);
        ApplyAllConcat(ops, writes, old(View()));
        ops := ops + writes;
      }
    }

    /** Stages 4 and 5: extract and validate; a rejected archive is dropped with its extraction. */
    method Extract(c: Codec, q: Request, resume: ResumePoint, outcome: DownloadOutcome)
      returns (r: Result<(), PipelineError>)
      modifies this
      ensures Did(ExtractStage(c, q, resume, outcome, old(View())))
      ensures var run := ExtractStage(c, q, resume, outcome, old(View()));
        if r.Ok? then run == Go(run.ops, Converting(resume, outcome)) else run == Stop(run.ops, r.error)
    {
      if !NeedExtract(resume) {
        return Ok(());
      }
      if q.faults.makeExtraction {
        return Err(IoFailed);
      }
      var ok;
      ghost var ops;
      ok, ops := ExtractArchive(c, q);
      if ok {
        r := Ok(());
      } else {
        Abandon(old(View()), ops, [DeleteZip, DeleteExtraction]);
        r := Err(ArchiveRejected);
      }
    }

    /** Converts every listed `*.txt` file in order, stopping at the first that does not convert or cannot be written. */
    method ConvertDirectory(c: Codec, dir: Files, names: seq<string>, faults: Faults) returns (ok: bool)
      requires parquet.Some? && forall n :: n in names ==> n in dir
      modifies this
      ensures log == old(log) + UntilFailure(ParquetWrites(c, dir, names), faults)
      ensures View() == ApplyAll(UntilFailure(ParquetWrites(c, dir, names), faults), old(View()))
      ensures ok <==>
        && (forall n :: n in names && IsTxt(n) ==> c.convert(dir[n]).Some?)
        && !ConvertFailsAt(ParquetWrites(c, dir, names), faults)
    {
      ghost var done := [];
      var written := 0;
      for i := 0 to |names|
        invariant ParquetWrites(c, dir, names) == done + ParquetWrites(c, dir, names[i..]) && written == |done|
        invariant log == old(log) + done && View() == ApplyAll(done, old(View()))
        invariant forall n :: n in names[..i] && IsTxt(n) ==> c.convert(dir[n]).Some?
        invariant faults.convertAt.Some? ==> written <= faults.convertAt.value
      {
        if faults.convertAt == Some(written) {
          assert UntilFailure(ParquetWrites(c, dir, names), faults) == done;
          return false;
        }
        assert names[i..][0] == names[i] && names[i..][1..] == names[i + 1..];
        assert names[..i + 1] == names[..i] + [names[i]];
        if IsTxt(names[i]) {
          match c.convert(dir[names[i]]) {
            case None =>
              assert ParquetWrites(c, dir, names) == done;
              return false;
            case Some(out) =>
              Perform(WriteParquet(ParquetName(names[i]), out));
              ApplyAllSnoc(done, WriteParquet(ParquetName(names[i]), out), old(View()));
              done, written := done + [WriteParquet(ParquetName(names[i]), out)], written + 1;
          }
        }
      }
      assert names[..|names|] == names && ParquetWrites(c, dir, names) == done;
      ok := faults.convertAt != Some(written);
    }

    /** The conversion itself: a fresh Parquet staging, filled from the extraction. */
    method ConvertExtraction(c: Codec, q: Request) returns (ok: bool, ghost ops: seq<Op>)
      requires ValidRequest(q)
      modifies this
      ensures log == old(log) + ops && View() == ApplyAll(ops, old(View()))
      ensures ok <==> old(extraction).Some? && ConvertSucceeds(c, q, old(extraction).value)
      ensures ops == [MakeParquet] + if old(extraction).None? then [] else FillWrites(c, q, old(extraction).value)
    {
      Perform(MakeParquet);
      ApplyAllSnoc([], MakeParquet, old(View()));
      ops, ok := [MakeParquet], false;
      if extraction.Some? {
        var dir := extraction.value;
        var names := Listed(q, dir);
        assert IsListing(q.listing(dir), dir);
        ok := ConvertDirectory(c, dir, names, q.faults);
        ApplyAllConcat(ops, FillWrites(c, q, dir), old(View()));
        ops := ops + FillWrites(c, q, dir);
      }
    }

    /** Stage 6: conversion; on failure everything staged goes, on success the CSVs do. */
    method Convert(c: Codec, q: Request, resume: ResumePoint, outcome: DownloadOutcome)
      returns (r: Result<(), PipelineError>)
      requires ValidRequest(q)
      modifies this
      ensures Did(ConvertStage(c, q, resume, outcome, old(View())))
      ensures var run := ConvertStage(c, q, resume, outcome, old(View()));
        if r.Ok? then run == Go(run.ops, Publishing(outcome)) else run == Stop(run.ops, r.error)
    {
      if !NeedConvert(resume) {
        return Ok(());
      }
      if q.faults.makeParquet {
        return Err(IoFailed);
      }
      var ok;
      ghost var ops;
      ok, ops := ConvertExtraction(c, q);
      if !ok {
        Abandon(old(View()), ops, [DeleteZip, DeleteExtraction, DeleteParquet]);
        r := Err(ParquetFailed);
      } else if q.faults.unseenSweep {
        r := Ok(());
      } else if q.faults.sweepExtraction {
        r := Err(IoFailed);
      } else {
        Perform(DeleteExtraction);
        ApplyAllSnoc(ops, DeleteExtraction, old(View()));
        r := Ok(());
      }
    }

    /** Stage 7 and the sidecar: replace any directory without a sidecar, rename, drop the archive, write the sidecar. */
    method Publish(q: Request, outcome: DownloadOutcome) returns (r: Result<SnapshotMeta, PipelineError>)
      modifies this
      ensures Did(PublishStage(q, outcome, old(View())))
      ensures var run := PublishStage(q, outcome, old(View()));
        if r.Ok? then run == Finish(run.ops, r.value) else run == Stop(run.ops, r.error)
    {
      ghost var ops := [];
      if published.Some? {
        if q.faults.dropFinal {
          return Err(IoFailed);
        }
        Perform(DeleteFinal);
        ApplyAllSnoc([], DeleteFinal, old(View()));
        ops := [DeleteFinal];
      }
      if q.faults.renameFinal {
        return Err(IoFailed);
      }
      PerformAll([RenameToFinal, DeleteZip]);
      ApplyAllConcat(ops, [RenameToFinal, DeleteZip], old(View()));
      ops := ops + [RenameToFinal, DeleteZip];
      if q.faults.sidecar {
        return Err(IoFailed);
      }
      var meta := MetaFor(q, outcome);
      Perform(WriteSidecar(meta));
      ApplyAllSnoc(ops, WriteSidecar(meta), old(View()));
      assert ops + [WriteSidecar(meta)] == PublishStage(q, outcome, old(View())).ops;
      r := Ok(meta);
    }

    method ConvertOnward(c: Codec, q: Request, resume: ResumePoint, outcome: DownloadOutcome, ghost plan: Plan)
      returns (r: Result<SnapshotMeta, PipelineError>)
      requires ValidRequest(q) && plan == PlanFrom(c, q, Converting(resume, outcome), View())
      modifies this
      ensures DidPlan(plan) && r == plan.result
    {
      ghost var d, ops := View(), ConvertStage(c, q, resume, outcome, View()).ops;
      var converted := Convert(c, q, resume, outcome);
      if converted.Err? {
        return Err(converted.error);
      }
      ghost var d1 := View();
      ghost var rest := PlanAfter(c, q, Converting(resume, outcome), d, plan, ops, Publishing(outcome), d1, old(log));
      r := Publish(q, outcome);
    }

    method ExtractOnward(c: Codec, q: Request, resume: ResumePoint, outcome: DownloadOutcome, ghost plan: Plan)
      returns (r: Result<SnapshotMeta, PipelineError>)
      requires ValidRequest(q) && plan == PlanFrom(c, q, Extracting(resume, outcome), View())
      modifies this
      ensures DidPlan(plan) && r == plan.result
    {
      ghost var d, ops := View(), ExtractStage(c, q, resume, outcome, View()).ops;
      var extracted := Extract(c, q, resume, outcome);
      if extracted.Err? {
        return Err(extracted.error);
      }
      ghost var d1 := View();
      ghost var rest := PlanAfter(c, q, Extracting(resume, outcome), d, plan, ops, Converting(resume, outcome), d1, old(log));
      r := ConvertOnward(c, q, resume, outcome, rest);
    }

    method VerifyOnward(c: Codec, q: Request, resume: ResumePoint, outcome: DownloadOutcome, ghost plan: Plan)
      returns (r: Result<SnapshotMeta, PipelineError>)
      requires ValidRequest(q) && plan == PlanFrom(c, q, Verifying(resume, outcome), View())
      modifies this
      ensures DidPlan(plan) && r == plan.result
    {
      ghost var d, ops := View(), VerifyStage(q, resume, outcome).ops;
      var verified := Verify(q, resume, outcome);
      if verified.Err? {
        return Err(verified.error);
      }
      ghost var d1 := View();
      ghost var rest := PlanAfter(c, q, Verifying(resume, outcome), d, plan, ops, Extracting(resume, outcome), d1, old(log));
      r := ExtractOnward(c, q, resume, outcome, rest);
    }

    method FetchOnward(c: Codec, q: Request, resume: ResumePoint, ghost plan: Plan)
      returns (r: Result<SnapshotMeta, PipelineError>)
      requires ValidRequest(q) && plan == PlanFrom(c, q, Fetching(resume), View())
      modifies this
      ensures DidPlan(plan) && r == plan.result
    {
      ghost var d, ops := View(), FetchStage(c, q, resume).ops;
      var fetched := Fetch(c, q, resume);
      if fetched.Err? {
        return Err(fetched.error);
      }
      ghost var d1 := View();
      ghost var rest := PlanAfter(c, q, Fetching(resume), d, plan, ops, Verifying(resume, fetched.value), d1, old(log));
      r := VerifyOnward(c, q, resume, fetched.value, rest);
    }

    method DiscardOnward(c: Codec, q: Request, resume: ResumePoint, ghost plan: Plan)
      returns (r: Result<SnapshotMeta, PipelineError>)
      requires ValidRequest(q) && plan == PlanFrom(c, q, Discarding(resume), View())
      modifies this
      ensures DidPlan(plan) && r == plan.result
    {
      ghost var d, ops := View(), DiscardStage(q, resume, View()).ops;
      var discarded := Discard(q, resume);
      if discarded.Err? {
        return Err(discarded.error);
      }
      ghost var d1 := View();
      ghost var rest := PlanAfter(c, q, Discarding(resume), d, plan, ops, Fetching(resume), d1, old(log));
      r := FetchOnward(c, q, resume, rest);
    }

    /** Stages 2 to 7 for one version: the whole run performs exactly its plan. */
    method RunStages(c: Codec, q: Request, ghost plan: Plan) returns (r: Result<SnapshotMeta, PipelineError>)
      requires ValidRequest(q) && plan == RunPlan(c, q, View())
      modifies this
      ensures DidPlan(plan) && r == plan.result
    {
      ghost var d := View();
      Perform(DeletePart);
      ghost var d1 := View();
      ghost var rest := RunAfter(c, q, d, d1, old(log));
      var resume := FindResumePoint(c, q.faults.missed, View());
      r := DiscardOnward(c, q, resume, rest);
    }
  }
}
