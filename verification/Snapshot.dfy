/**
 Staged publication of one version (snapshot.rs, with parquet_convert.rs and download.rs
 as far as they touch the disk).

 `RunPlan` is `run_stages` as a specification: the exact sequence of atomic disk
 operations it performs from a given disk, and its result. A crash between two
 operations leaves the disk that a prefix of that sequence produces. Every file write,
 directory removal, rename and sidecar write is one atomic operation.
 */
module Snapshot {
  import opened Wrappers
  import opened Text
  import opened Domain
  import opened Paths
  import opened Archive
  import opened Manifest

  // ---- The disk of one version ----

  /** A directory under its final name, with its sidecar once written. */
  datatype FinalDir = FinalDir(files: Files, sidecar: Option<SnapshotMeta>)

  datatype Disk = Disk(
    part: bool,
    zip: Option<ZipFile>,
    extraction: Option<Files>,
    parquet: Option<Files>,
    published: Option<FinalDir>)

  const EMPTY_DISK := Disk(false, None, None, None, None)

  /** A directory without a sidecar is not installed. */
  predicate Installed(d: Disk)
  {
    d.published.Some? && d.published.value.sidecar.Some?
  }

  datatype Op =
    | WritePart
    | DeletePart
    | PromotePart(zip: ZipFile)
    | DeleteZip
    | MakeExtraction
    | WriteMember(name: string, content: string)
    | DeleteExtraction
    | MakeParquet
    | WriteParquet(name: string, content: string)
    | DeleteParquet
    | DeleteFinal
    | RenameToFinal
    | WriteSidecar(meta: SnapshotMeta)

  /** One atomic operation; an operation whose target directory is missing changes nothing. */
  function Apply(op: Op, d: Disk): Disk
  {
    match op
    case WritePart => d.(part := true)
    case DeletePart => d.(part := false)
    case PromotePart(zip) => d.(part := false, zip := Some(zip))
    case DeleteZip => d.(zip := None)
    case MakeExtraction => d.(extraction := Some(map[]))
    case WriteMember(name, content) =>
      if d.extraction.None? then d else d.(extraction := Some(d.extraction.value[name := content]))
    case DeleteExtraction => d.(extraction := None)
    case MakeParquet => d.(parquet := Some(map[]))
    case WriteParquet(name, content) =>
      if d.parquet.None? then d else d.(parquet := Some(d.parquet.value[name := content]))
    case DeleteParquet => d.(parquet := None)
    case DeleteFinal => d.(published := None)
    case RenameToFinal =>
      if d.parquet.None? || d.published.Some? then d
      else d.(parquet := None, published := Some(FinalDir(d.parquet.value, None)))
    case WriteSidecar(meta) =>
      if d.published.None? then d
      else d.(published := Some(d.published.value.(sidecar := Some(meta))))
  }

  function ApplyAll(ops: seq<Op>, d: Disk): Disk
  {
    if ops == [] then d else ApplyAll(ops[1..], Apply(ops[0], d))
  }

  lemma {:induction false} ApplyAllConcat(a: seq<Op>, b: seq<Op>, d: Disk)
    ensures ApplyAll(a + b, d) == ApplyAll(b, ApplyAll(a, d))
  {
    if a == [] {
      assert a + b == b;
    } else {
      assert (a + b)[1..] == a[1..] + b;
      ApplyAllConcat(a[1..], b, Apply(a[0], d));
    }
  }

  lemma ApplyAllSnoc(a: seq<Op>, op: Op, d: Disk)
    ensures ApplyAll(a + [op], d) == Apply(op, ApplyAll(a, d))
  {
    ApplyAllConcat(a, [op], d);
    assert [op][1..] == [];
  }

  // ---- What one run is given ----

  /** What is fixed across runs: the member lists, and conversion and hashing as any functions of the bytes. */
  datatype Codec = Codec(
    lists: MemberLists,
    convert: string -> Option<string>,
    sha256: ZipFile -> string,
    size: ZipFile -> nat)

  /** How the server answers: no file at all, a cut or wrongly sized transfer, or a whole archive. */
  datatype Reply =
    | Refused
    | Cut
    | Complete(zip: ZipFile, etag: Option<string>, lastModified: Option<string>)

  /**
   What the inspection of staging fails to see. `archive`: the `.zip` cannot be read back.
   `conversion`: the Parquet staging, a file in it or the listing of the extraction cannot be
   read. `extraction`: the extraction directory passes for absent. `hidden`: its entries that
   a listing skips. `phantom`: an entry of the Parquet staging that cannot be read, but counts.
   `members`: the required members in the extraction cannot be checked.
   */
  datatype Missed = Missed(
    archive: bool,
    conversion: bool,
    extraction: bool,
    hidden: set<string>,
    phantom: bool,
    members: bool)

  const NOTHING_MISSED := Missed(false, false, false, {}, false, false)

  /**
   Which fallible calls fail in this run. `extractAt` and `convertAt` say after how many member
   or Parquet writes extraction or conversion fails, if it does; `unseenSweep` is an extraction
   that its existence test overlooks after the conversion, and `dropFinal` is also the rename
   onto a directory that its test overlooked.
   */
  datatype Faults = Faults(
    missed: Missed,
    dropExtraction: bool,
    dropParquet: bool,
    promote: bool,
    makeExtraction: bool,
    extractAt: Option<nat>,
    makeParquet: bool,
    convertAt: Option<nat>,
    sweepExtraction: bool,
    unseenSweep: bool,
    dropFinal: bool,
    renameFinal: bool,
    sidecar: bool)

  const NO_FAULTS :=
    Faults(NOTHING_MISSED, false, false, false, false, None, false, None, false, false, false, false, false)

  /** Everything outside the disk that decides one run: resource, clock, server, directory order, faults. */
  datatype Request = Request(
    resource: UpstreamResource,
    layout: RawLayout,
    now: nat,
    reply: Reply,
    listing: Files -> seq<string>,
    faults: Faults)

  /** A directory listing names every entry once, in any order. */
  ghost predicate IsListing(names: seq<string>, dir: Files)
  {
    && (forall n :: n in names <==> n in dir)
    && forall i, j :: 0 <= i < j < |names| ==> names[i] != names[j]
  }

  ghost predicate ValidRequest(q: Request)
  {
    forall dir :: IsListing(q.listing(dir), dir)
  }

  datatype DownloadOutcome = DownloadOutcome(
    bytes: nat,
    sha256: string,
    etag: Option<string>,
    lastModified: Option<string>)

  datatype PipelineError = DownloadFailed | HashMismatch | ArchiveRejected | ParquetFailed | IoFailed

  // ---- Conversion names ----

  /** A top-level `*.txt` entry, the extension in any case. */
  predicate IsTxt(name: string)
  {
    '/' !in name && |name| > 4 && Lower(name[|name| - 4..]) == ".txt"
  }

  function ParquetName(name: string): string
    requires |name| > 4
  {
    name[..|name| - 4] + ".parquet"
  }

  /** Every required member has a converted file. */
  predicate AllRequiredConverted(c: Codec, files: Files)
  {
    forall m :: m in c.lists.required ==> |m| > 4 && ParquetName(m) in files
  }

  predicate RequiredNamesTxt(lists: MemberLists)
  {
    forall m :: m in lists.required ==> IsTxt(m)
  }

  /** `stem.txt` is converted to `stem.parquet`, and so is a top-level file with the extension in capitals. */
  lemma ConvertedName(stem: string)
    requires '/' !in stem && stem != ""
    ensures IsTxt(stem + ".txt") && ParquetName(stem + ".txt") == stem + ".parquet"
    ensures IsTxt(stem + ".TXT") && ParquetName(stem + ".TXT") == stem + ".parquet"
  {
    TxtName(stem + ".txt");
    var capitals := stem + ".TXT";
    var e := capitals[|capitals| - 4..];
    assert Lower(e) == [LowerChar(e[0]), LowerChar(e[1]), LowerChar(e[2]), LowerChar(e[3])] == ".txt";
    assert (stem + ".txt")[..|stem|] == stem && capitals[..|stem|] == stem;
  }

  /** Nothing else is: no nested file, no other extension, and no bare `.txt`. */
  lemma NotConverted(name: string)
    ensures IsTxt(name) ==> '/' !in name && exists stem, e: string :: stem != "" && name == stem + e && Lower(e) == ".txt"
  {
    if IsTxt(name) {
      var stem, e := name[..|name| - 4], name[|name| - 4..];
      assert stem != "" && name == stem + e && Lower(e) == ".txt";
    }
  }

  lemma TxtName(name: string)
    requires |name| > 4 && '/' !in name
    requires name[|name| - 4] == '.' && name[|name| - 3] == 't' && name[|name| - 2] == 'x' && name[|name| - 1] == 't'
    ensures IsTxt(name)
  {
    var e := name[|name| - 4..];
    assert Lower(e) == [e[0], e[1], e[2], e[3]] == ".txt";
  }

  lemma RequiredIsTxt(i: nat)
    requires i < |GTFS_MEMBERS.required|
    ensures IsTxt(GTFS_MEMBERS.required[i])
  {
    match i
    case 0 => TxtName("stops.txt");
    case 1 => TxtName("trips.txt");
    case 2 => TxtName("routes.txt");
    case 3 => TxtName("stop_times.txt");
    case _ => TxtName("calendar_dates.txt");
  }

  /** The downloader's own required members are all `*.txt`. */
  lemma RequiredAreTxt()
    ensures RequiredNamesTxt(GTFS_MEMBERS)
  {
    forall m | m in GTFS_MEMBERS.required ensures IsTxt(m) {
      var i :| 0 <= i < |GTFS_MEMBERS.required| && GTFS_MEMBERS.required[i] == m;
      RequiredIsTxt(i);
    }
  }

  // ---- Resume decision ----

  datatype ResumePoint =
    | FromScratch
    | Downloaded(outcome: DownloadOutcome)
    | Extracted(outcome: DownloadOutcome)
    | Converted(outcome: DownloadOutcome)

  predicate NonEmptyFile(dir: Files, name: string)
  {
    name in dir && dir[name] != ""
  }

  /** Whether an inspection takes the Parquet staging for a full conversion of what is left of the extraction. */
  predicate PassesForConverted(m: Missed, d: Disk)
  {
    && d.parquet.Some? && !m.conversion
    && if d.extraction.None? || m.extraction then d.parquet.value != map[] || m.phantom
       else
         && (exists n :: n in d.extraction.value && IsTxt(n) && n !in m.hidden)
         && forall n :: n in d.extraction.value && IsTxt(n) && n !in m.hidden ==>
              NonEmptyFile(d.parquet.value, ParquetName(n))
  }

  /** Whether it takes the extraction for a valid one. */
  predicate PassesForExtracted(lists: MemberLists, m: Missed, d: Disk)
  {
    d.extraction.Some? && !m.members && RequiredOnDisk(lists, d.extraction.value)
  }

  function RecomputedOutcome(c: Codec, zip: ZipFile): DownloadOutcome
  {
    DownloadOutcome(c.size(zip), c.sha256(zip), None, None)
  }

  /** The resume decision, from what the inspection sees; an archive that it cannot read back stays where it is. */
  function FindResumePoint(c: Codec, m: Missed, d: Disk): ResumePoint
  {
    match d.zip
    case None => FromScratch
    case Some(zip) =>
      var outcome := RecomputedOutcome(c, zip);
      if m.archive then FromScratch
      else if PassesForConverted(m, d) then Converted(outcome)
      else if PassesForExtracted(c.lists, m, d) then Extracted(outcome)
      else Downloaded(outcome)
  }

  predicate NeedDownload(resume: ResumePoint) { resume.FromScratch? }

  predicate NeedExtract(resume: ResumePoint) { resume.FromScratch? || resume.Downloaded? }

  predicate NeedConvert(resume: ResumePoint) { !resume.Converted? }

  // ---- run_stages, stage by stage ----

  /** Where `run_stages` stands, with the local values it carries from there on. */
  datatype Stage =
    | Discarding(resume: ResumePoint)
    | Fetching(resume: ResumePoint)
    | Verifying(resume: ResumePoint, outcome: DownloadOutcome)
    | Extracting(resume: ResumePoint, outcome: DownloadOutcome)
    | Converting(resume: ResumePoint, outcome: DownloadOutcome)
    | Publishing(outcome: DownloadOutcome)

  function StagesLeft(s: Stage): nat
  {
    match s
    case Discarding(_) => 6
    case Fetching(_) => 5
    case Verifying(_, _) => 4
    case Extracting(_, _) => 3
    case Converting(_, _) => 2
    case Publishing(_) => 1
  }

  /** What a stage does to the disk, and whether it goes on, gives up or finishes. */
  datatype StageRun =
    | Go(ops: seq<Op>, next: Stage)
    | Stop(ops: seq<Op>, error: PipelineError)
    | Finish(ops: seq<Op>, meta: SnapshotMeta)

  /** Discard exactly what is about to be redone, the extraction first. */
  function DiscardStage(q: Request, resume: ResumePoint, d: Disk): StageRun
  {
    var stale := if NeedExtract(resume) && d.extraction.Some? then [DeleteExtraction] else [];
    if stale != [] && q.faults.dropExtraction then Stop([], IoFailed)
    else if NeedConvert(resume) && d.parquet.Some? then
      if q.faults.dropParquet then Stop(stale, IoFailed)
      else Go(stale + [DeleteParquet], Fetching(resume))
    else Go(stale, Fetching(resume))
  }

  /** Download, unless an archive is already there. */
  function FetchStage(c: Codec, q: Request, resume: ResumePoint): StageRun
  {
    if !NeedDownload(resume) then Go([], Verifying(resume, resume.outcome))
    else
      match q.reply
      case Refused => Stop([], DownloadFailed)
      case Cut => Stop([WritePart, DeletePart], DownloadFailed)
      case Complete(zip, etag, lastModified) =>
        if q.faults.promote then Stop([WritePart], DownloadFailed)
        else
          Go([WritePart, PromotePart(zip)],
             Verifying(resume, DownloadOutcome(c.size(zip), c.sha256(zip), etag, lastModified)))
  }

  /** The upstream-hash check; a mismatch drops the archive. */
  function VerifyStage(q: Request, resume: ResumePoint, outcome: DownloadOutcome): StageRun
  {
    if HashAccepted(q.resource.upstreamHash, outcome.sha256) then Go([], Extracting(resume, outcome))
    else Stop([DeleteZip], HashMismatch)
  }

  function MemberWrites(entries: seq<Entry>): seq<Op>
  {
    seq(|entries|, i requires 0 <= i < |entries| => WriteMember(entries[i].name, entries[i].content))
  }

  /** Extraction of `entries` fails after so many of them, even if after all. */
  predicate ExtractFails(entries: seq<Entry>, faults: Faults)
  {
    faults.extractAt.Some? && faults.extractAt.value <= |entries|
  }

  /** The entries that reach the disk: none of an unsound archive, those before a failure otherwise. */
  function WrittenEntries(lists: MemberLists, zip: ZipFile, faults: Faults): seq<Entry>
  {
    if zip.Unreadable? || !MembersSound(lists, zip.entries) then []
    else if ExtractFails(zip.entries, faults) then zip.entries[..faults.extractAt.value]
    else zip.entries
  }

  predicate ExtractSucceeds(lists: MemberLists, zip: ZipFile, faults: Faults)
  {
    Extractable(lists, zip) && !ExtractFails(zip.entries, faults)
  }

  /** Extract and validate; a rejected archive is dropped together with its extraction. */
  function ExtractStage(c: Codec, q: Request, resume: ResumePoint, outcome: DownloadOutcome, d: Disk): StageRun
  {
    if !NeedExtract(resume) then Go([], Converting(resume, outcome))
    else if q.faults.makeExtraction then Stop([], IoFailed)
    else if d.zip.None? then Stop([MakeExtraction, DeleteZip, DeleteExtraction], ArchiveRejected)
    else
      var ops := [MakeExtraction] + MemberWrites(WrittenEntries(c.lists, d.zip.value, q.faults));
      if ExtractSucceeds(c.lists, d.zip.value, q.faults) then Go(ops, Converting(resume, outcome))
      else Stop(ops + [DeleteZip, DeleteExtraction], ArchiveRejected)
  }

  /** The conversions made in listing order, up to the first member that does not convert. */
  function ParquetWrites(c: Codec, dir: Files, names: seq<string>): seq<Op>
    requires forall n :: n in names ==> n in dir
  {
    if names == [] then []
    else if !IsTxt(names[0]) then ParquetWrites(c, dir, names[1..])
    else
      match c.convert(dir[names[0]])
      case None => []
      case Some(out) => [WriteParquet(ParquetName(names[0]), out)] + ParquetWrites(c, dir, names[1..])
  }

  predicate AllConvert(c: Codec, dir: Files)
  {
    forall n :: n in dir && IsTxt(n) ==> c.convert(dir[n]).Some?
  }

  /** The listing restricted to names that exist; a valid request's listing is left unchanged. */
  function Listed(q: Request, dir: Files): (names: seq<string>)
    ensures forall n :: n in names ==> n in dir
  {
    if forall n :: n in q.listing(dir) ==> n in dir then q.listing(dir) else []
  }

  /** Conversion fails after so many of these writes, even if after all. */
  predicate ConvertFailsAt(writes: seq<Op>, faults: Faults)
  {
    faults.convertAt.Some? && faults.convertAt.value <= |writes|
  }

  function UntilFailure(writes: seq<Op>, faults: Faults): seq<Op>
  {
    if ConvertFailsAt(writes, faults) then writes[..faults.convertAt.value] else writes
  }

  /** The conversions that reach the disk. */
  function FillWrites(c: Codec, q: Request, dir: Files): seq<Op>
  {
    UntilFailure(ParquetWrites(c, dir, Listed(q, dir)), q.faults)
  }

  predicate ConvertSucceeds(c: Codec, q: Request, dir: Files)
  {
    AllConvert(c, dir) && !ConvertFailsAt(ParquetWrites(c, dir, Listed(q, dir)), q.faults)
  }

  /** Convert; on failure everything staged goes, on success the extraction does. */
  function ConvertStage(c: Codec, q: Request, resume: ResumePoint, outcome: DownloadOutcome, d: Disk): StageRun
  {
    if !NeedConvert(resume) then Go([], Publishing(outcome))
    else if q.faults.makeParquet then Stop([], IoFailed)
    else if d.extraction.None? then Stop([MakeParquet, DeleteZip, DeleteExtraction, DeleteParquet], ParquetFailed)
    else
      var dir := d.extraction.value;
      var ops := [MakeParquet] + FillWrites(c, q, dir);
      if !ConvertSucceeds(c, q, dir) then Stop(ops + [DeleteZip, DeleteExtraction, DeleteParquet], ParquetFailed)
      else if q.faults.unseenSweep then Go(ops, Publishing(outcome))
      else if q.faults.sweepExtraction then Stop(ops, IoFailed)
      else Go(ops + [DeleteExtraction], Publishing(outcome))
  }

  function MetaFor(q: Request, outcome: DownloadOutcome): SnapshotMeta
  {
    var dirName := SnapshotDirName(q.resource.namePrefix, q.resource.version);
    SnapshotMeta(
      q.resource.version,
      q.resource.downloadUrl,
      q.now,
      outcome.bytes,
      outcome.sha256,
      if q.resource.publisherLastModified.Some? then q.resource.publisherLastModified else outcome.lastModified,
      outcome.etag,
      ArtifactPath(q.layout, Final, dirName),
      Verified)
  }

  /** Replace any directory without a sidecar, rename, drop the archive, write the sidecar. */
  function PublishStage(q: Request, outcome: DownloadOutcome, d: Disk): StageRun
  {
    var stale := if d.published.Some? then [DeleteFinal] else [];
    if stale != [] && q.faults.dropFinal then Stop([], IoFailed)
    else if q.faults.renameFinal then Stop(stale, IoFailed)
    else if q.faults.sidecar then Stop(stale + [RenameToFinal, DeleteZip], IoFailed)
    else
      var meta := MetaFor(q, outcome);
      Finish(stale + [RenameToFinal, DeleteZip, WriteSidecar(meta)], meta)
  }

  function RunStage(c: Codec, q: Request, s: Stage, d: Disk): (r: StageRun)
    ensures r.Go? ==> StagesLeft(r.next) < StagesLeft(s)
  {
    match s
    case Discarding(resume) => DiscardStage(q, resume, d)
    case Fetching(resume) => FetchStage(c, q, resume)
    case Verifying(resume, outcome) => VerifyStage(q, resume, outcome)
    case Extracting(resume, outcome) => ExtractStage(c, q, resume, outcome, d)
    case Converting(resume, outcome) => ConvertStage(c, q, resume, outcome, d)
    case Publishing(outcome) => PublishStage(q, outcome, d)
  }

  // ---- run_stages as one sequence of operations and a result ----

  datatype Plan = Plan(ops: seq<Op>, result: Result<SnapshotMeta, PipelineError>)

  function Prepend(ops: seq<Op>, p: Plan): Plan
  {
    Plan(ops + p.ops, p.result)
  }

  /** Everything that happens from stage `s` on. */
  function PlanFrom(c: Codec, q: Request, s: Stage, d: Disk): Plan
    decreases StagesLeft(s)
  {
    match RunStage(c, q, s, d)
    case Go(ops, next) => Prepend(ops, PlanFrom(c, q, next, ApplyAll(ops, d)))
    case Stop(ops, error) => Plan(ops, Err(error))
    case Finish(ops, meta) => Plan(ops, Ok(meta))
  }

  function RunPlan(c: Codec, q: Request, d: Disk): Plan
  {
    var d0 := Apply(DeletePart, d);
    Prepend([DeletePart], PlanFrom(c, q, Discarding(FindResumePoint(c, q.faults.missed, d0)), d0))
  }

  /** A stage that goes on contributes its own operations. */
  lemma StageGoes(c: Codec, q: Request, s: Stage, ops: seq<Op>, next: Stage, d: Disk)
    requires RunStage(c, q, s, d) == Go(ops, next)
    ensures PlanFrom(c, q, s, d) == Prepend(ops, PlanFrom(c, q, next, ApplyAll(ops, d)))
  {
  }

  /** A stage with nothing to do contributes nothing. */
  lemma StageSkips(c: Codec, q: Request, s: Stage, next: Stage, d: Disk)
    requires RunStage(c, q, s, d) == Go([], next)
    ensures PlanFrom(c, q, s, d) == PlanFrom(c, q, next, d)
  {
    StageGoes(c, q, s, [], next, d);
    var p := PlanFrom(c, q, next, d);
    assert ApplyAll([], d) == d && [] + p.ops == p.ops;
  }

  lemma {:induction false} FullExtractionOnDisk(entries: seq<Entry>, d: Disk)
    requires d.extraction == Some(map[])
    ensures ApplyAll(MemberWrites(entries), d) == d.(extraction := Some(FullExtraction(entries)))
  {
    if entries == [] {
      assert MemberWrites(entries) == [];
    } else {
      var last, init := entries[|entries| - 1], entries[..|entries| - 1];
      FullExtractionOnDisk(init, d);
      assert MemberWrites(entries) == MemberWrites(init) + [WriteMember(last.name, last.content)];
      ApplyAllSnoc(MemberWrites(init), WriteMember(last.name, last.content), d);
    }
  }

  // ---- The invariant every crash point keeps ----

  /** `out` is the conversion, under the name `file`, of some top-level `*.txt` member of `zip`. */
  ghost predicate HasConversion(c: Codec, zip: ZipFile, file: string, out: string)
  {
    exists name, content {:trigger HasEntry(zip, name, content)} ::
      HasEntry(zip, name, content) && IsTxt(name) && ParquetName(name) == file && c.convert(content) == Some(out)
  }

  ghost predicate ConvertedFrom(c: Codec, zip: ZipFile, files: Files)
  {
    forall f :: f in files ==> HasConversion(c, zip, f, files[f])
  }

  /** Staging beside a `.zip` derives from it, and is complete whenever a resume would trust it. */
  ghost predicate StagingInv(c: Codec, d: Disk)
  {
    d.zip.Some? ==>
      var zip := d.zip.value;
      && (d.extraction.Some? ==> FromArchive(zip, d.extraction.value))
      && (d.parquet.Some? ==> ConvertedFrom(c, zip, d.parquet.value))
      && (d.parquet.Some? && d.extraction.Some? ==> RequiredOnDisk(c.lists, d.extraction.value))
      && (d.parquet.Some? && d.extraction.None? && d.parquet.value != map[] ==>
            AllRequiredConverted(c, d.parquet.value))
  }

  /** `files` is a complete conversion of `zip`, and `meta` records that archive's size and hash. */
  ghost predicate PublishedFrom(c: Codec, zip: ZipFile, files: Files, meta: SnapshotMeta)
  {
    && meta.archiveSha256 == c.sha256(zip)
    && meta.archiveSizeBytes == c.size(zip)
    && ConvertedFrom(c, zip, files)
    && AllRequiredConverted(c, files)
  }

  ghost predicate PublishedInv(c: Codec, d: Disk)
  {
    Installed(d) ==>
      exists zip :: PublishedFrom(c, zip, d.published.value.files, d.published.value.sidecar.value)
  }

  ghost predicate DiskInv(c: Codec, d: Disk)
  {
    StagingInv(c, d) && PublishedInv(c, d)
  }

  /** A conversion, begun but not of every required member, beside its extraction and its archive. */
  predicate UnfinishedConversion(c: Codec, d: Disk)
  {
    && d.zip.Some? && d.extraction.Some? && d.parquet.Some?
    && d.parquet.value != map[] && !AllRequiredConverted(c, d.parquet.value)
  }

  /**
   An inspection misleads a run when the run is to discard the extraction of a conversion that
   is under way and not complete, or to publish one that is not complete.
   */
  predicate MisledUnless(c: Codec, m: Missed, d: Disk, complete: bool)
  {
    match FindResumePoint(c, m, d)
    case Converted(_) => !complete
    case Extracted(_) => false
    case _ => d.zip.Some? && d.extraction.Some? && d.parquet.Some? && d.parquet.value != map[] && !complete
  }

  /** Complete here means: a converted file for every required member. */
  predicate Misled(c: Codec, m: Missed, d: Disk)
  {
    MisledUnless(c, m, d, d.parquet.Some? && AllRequiredConverted(c, d.parquet.value))
  }

  /** Every state before the last keeps the invariant and is not yet installed; the last keeps the invariant. */
  ghost predicate Safe(c: Codec, ops: seq<Op>, d: Disk)
    decreases |ops|
  {
    DiskInv(c, d) && (ops != [] ==> !Installed(d) && Safe(c, ops[1..], Apply(ops[0], d)))
  }

  lemma {:induction false} SafeConcat(c: Codec, a: seq<Op>, b: seq<Op>, d: Disk)
    requires Safe(c, a, d) && !Installed(ApplyAll(a, d)) && Safe(c, b, ApplyAll(a, d))
    ensures Safe(c, a + b, d)
    decreases |a|
  {
    if a == [] {
      assert a + b == b;
    } else {
      assert (a + b)[1..] == a[1..] + b;
      SafeConcat(c, a[1..], b, Apply(a[0], d));
    }
  }

  lemma {:induction false} SafeAtEveryPrefix(c: Codec, ops: seq<Op>, d: Disk, k: nat)
    requires Safe(c, ops, d) && k <= |ops|
    ensures DiskInv(c, ApplyAll(ops[..k], d))
    ensures k < |ops| ==> !Installed(ApplyAll(ops[..k], d))
    decreases k
  {
    if k > 0 {
      assert ops[..k][1..] == ops[1..][..k - 1];
      SafeAtEveryPrefix(c, ops[1..], Apply(ops[0], d), k - 1);
    }
  }
}
