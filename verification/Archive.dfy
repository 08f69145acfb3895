/** Archive-level (Tier 1) checks and extraction over abstract archives and directories (archive.rs). */
module Archive {
  import opened Wrappers
  import opened Text

  /** One zip member: its name, its decompressed bytes and whether its CRC32 matches. */
  datatype Entry = Entry(name: string, content: string, intact: bool)

  /** What sits at a `.zip` path: something the zip reader rejects, or an archive. */
  datatype ZipFile = Unreadable(bytes: string) | Readable(entries: seq<Entry>)

  /** A directory: regular files by their path relative to it. */
  type Files = map<string, string>

  datatype ArchiveError =
    | InvalidZip
    | CrcMismatch(name: string)
    | MissingRequiredMember(name: string)
    | EmptyMember(name: string)
    | MissingAfterExtraction(name: string)
    | EmptyAfterExtraction(name: string)

  /**
   The member lists the checks run against. The checks and everything built on them hold for
   any such lists; `GTFS_MEMBERS` is the one the downloader uses.
   */
  datatype MemberLists = MemberLists(required: seq<string>, optional: seq<string>)

  const GTFS_MEMBERS := MemberLists(
    ["stops.txt", "trips.txt", "routes.txt", "stop_times.txt", "calendar_dates.txt"],
    ["agency.txt", "calendar.txt"])

  function TrimSlashes(name: string): string
  {
    if name != "" && name[|name| - 1] == '/' then TrimSlashes(name[..|name| - 1]) else name
  }

  /** The lower-cased file name of a top-level entry; nothing for nested or nameless ones. */
  function MemberBaseName(entryName: string): Option<string>
  {
    var name := TrimSlashes(entryName);
    if name == "" || name == "." || name == ".." || '/' in name then None else Some(Lower(name))
  }

  predicate AllIntact(entries: seq<Entry>)
  {
    forall i :: 0 <= i < |entries| ==> entries[i].intact
  }

  /** The content of the last top-level entry whose lower-cased name is `base`. */
  function LastMember(entries: seq<Entry>, base: string): Option<string>
  {
    if entries == [] then None
    else
      var last := entries[|entries| - 1];
      if MemberBaseName(last.name) == Some(base) then Some(last.content)
      else LastMember(entries[..|entries| - 1], base)
  }

  predicate MemberPresent(entries: seq<Entry>, base: string)
  {
    LastMember(entries, base).Some? && LastMember(entries, base).value != ""
  }

  predicate MemberNotEmpty(entries: seq<Entry>, base: string)
  {
    LastMember(entries, base) != Some("")
  }

  /** Archive soundness before extraction: CRCs match, required members carry data, optional ones are not empty. */
  predicate MembersSound(lists: MemberLists, entries: seq<Entry>)
  {
    && AllIntact(entries)
    && (forall m :: m in lists.required ==> MemberPresent(entries, m))
    && (forall m :: m in lists.optional ==> MemberNotEmpty(entries, m))
  }

  // ---- What soundness means ----

  /** Entry `k` is the last one that counts as the member `base`. */
  predicate IsLastOf(entries: seq<Entry>, base: string, k: nat)
  {
    && k < |entries| && MemberBaseName(entries[k].name) == Some(base)
    && forall j :: k < j < |entries| ==> MemberBaseName(entries[j].name) != Some(base)
  }

  /** The last entry that counts as this member has data. */
  ghost predicate CarriesData(entries: seq<Entry>, base: string)
  {
    exists k: nat :: IsLastOf(entries, base, k) && entries[k].content != ""
  }

  /** The last entry that counts as this member has none. */
  ghost predicate IsEmptyMember(entries: seq<Entry>, base: string)
  {
    exists k: nat :: IsLastOf(entries, base, k) && entries[k].content == ""
  }

  lemma {:induction false} LastMemberIs(entries: seq<Entry>, base: string) returns (k: nat)
    ensures LastMember(entries, base).Some? ==> IsLastOf(entries, base, k) && entries[k].content == LastMember(entries, base).value
    ensures LastMember(entries, base).None? ==> forall j :: 0 <= j < |entries| ==> MemberBaseName(entries[j].name) != Some(base)
  {
    if entries == [] {
      return 0;
    }
    var last := |entries| - 1;
    if MemberBaseName(entries[last].name) == Some(base) {
      return last;
    }
    k := LastMemberIs(entries[..last], base);
  }

  lemma MemberMeans(entries: seq<Entry>, base: string)
    ensures MemberPresent(entries, base) <==> CarriesData(entries, base)
    ensures MemberNotEmpty(entries, base) <==> !IsEmptyMember(entries, base)
  {
    var k := LastMemberIs(entries, base);
    forall j: nat | IsLastOf(entries, base, j) ensures LastMember(entries, base).Some? && j == k {
    }
  }

  /** Every member's checksum is right, required members carry data, and no optional one is there without. */
  lemma SoundMeans(lists: MemberLists, entries: seq<Entry>)
    ensures MembersSound(lists, entries) <==>
      && (forall e :: e in entries ==> e.intact)
      && (forall m :: m in lists.required ==> CarriesData(entries, m))
      && (forall m :: m in lists.optional ==> !IsEmptyMember(entries, m))
  {
    forall m ensures MemberPresent(entries, m) <==> CarriesData(entries, m)
             ensures MemberNotEmpty(entries, m) <==> !IsEmptyMember(entries, m)
    {
      MemberMeans(entries, m);
    }
  }

  /** The five members the downloader requires, and the two it only wants not to be empty. */
  lemma DownloaderMembers(entries: seq<Entry>)
    ensures MembersSound(GTFS_MEMBERS, entries) <==>
      && (forall e :: e in entries ==> e.intact)
      && CarriesData(entries, "stops.txt") && CarriesData(entries, "trips.txt") && CarriesData(entries, "routes.txt")
      && CarriesData(entries, "stop_times.txt") && CarriesData(entries, "calendar_dates.txt")
      && !IsEmptyMember(entries, "agency.txt") && !IsEmptyMember(entries, "calendar.txt")
  {
    SoundMeans(GTFS_MEMBERS, entries);
    var five, two := GTFS_MEMBERS.required, GTFS_MEMBERS.optional;
    assert five[0] == "stops.txt" && five[1] == "trips.txt" && five[2] == "routes.txt" && five[3] == "stop_times.txt"
      && five[4] == "calendar_dates.txt" && |five| == 5;
    assert two[0] == "agency.txt" && two[1] == "calendar.txt" && |two| == 2;
    assert forall m :: m in five <==> m == five[0] || m == five[1] || m == five[2] || m == five[3] || m == five[4];
    assert forall m :: m in two <==> m == two[0] || m == two[1];
  }

  /** An entry counts under its lower-cased name at the top level, and not at all in a directory. */
  lemma CountsAs(name: string, dir: string)
    requires name != "" && name != "." && name != ".." && '/' !in name
    ensures MemberBaseName(name) == Some(Lower(name))
    ensures MemberBaseName(name + "/") == Some(Lower(name))
    ensures MemberBaseName(dir + "/" + name) == None
  {
    PlainName(name);
    assert (name + "/")[..|name|] == name;
    var nested := dir + "/" + name;
    assert nested[|nested| - 1] == name[|name| - 1];
    assert nested[|dir|] == '/';
  }

  /** Whether all required members before the k-th are present. */
  predicate PresentBefore(lists: MemberLists, entries: seq<Entry>, k: nat)
    requires k <= |lists.required|
  {
    forall j :: 0 <= j < k ==> MemberPresent(entries, lists.required[j])
  }

  ghost predicate FirstAbsent(lists: MemberLists, entries: seq<Entry>, name: string, content: Option<string>)
  {
    && LastMember(entries, name) == content
    && exists k :: 0 <= k < |lists.required| && lists.required[k] == name && PresentBefore(lists, entries, k)
  }

  /** The first problem, in the order the checks run, is the one reported. */
  ghost predicate ReportedProblem(lists: MemberLists, entries: seq<Entry>, e: ArchiveError)
  {
    match e
    case CrcMismatch(name) =>
      exists i :: 0 <= i < |entries| && AllIntact(entries[..i]) && !entries[i].intact && entries[i].name == name
    case MissingRequiredMember(name) =>
      AllIntact(entries) && FirstAbsent(lists, entries, name, None)
    case EmptyMember(name) =>
      && AllIntact(entries)
      && (FirstAbsent(lists, entries, name, Some("")) || EmptyOptional(lists, entries, name))
    case _ => false
  }

  ghost predicate EmptyOptional(lists: MemberLists, entries: seq<Entry>, name: string)
  {
    && name in lists.optional
    && LastMember(entries, name) == Some("")
    && forall m :: m in lists.required ==> MemberPresent(entries, m)
  }

  /** Pass 1 of the Tier 1 check: accepts exactly the sound archives and reports the first problem otherwise. */
  method ValidateMembers(lists: MemberLists, entries: seq<Entry>) returns (r: Result<(), ArchiveError>)
    ensures r.Ok? <==> MembersSound(lists, entries)
    ensures r.Ok? <==>
      && (forall e :: e in entries ==> e.intact)
      && (forall m :: m in lists.required ==> CarriesData(entries, m))
      && (forall m :: m in lists.optional ==> !IsEmptyMember(entries, m))
    ensures r.Err? ==> ReportedProblem(lists, entries, r.error)
  {
    SoundMeans(lists, entries);
    var memberSizes: map<string, nat> := map[];
    for i := 0 to |entries|
      invariant AllIntact(entries[..i])
      invariant forall b :: b in memberSizes <==> LastMember(entries[..i], b).Some?
      invariant forall b :: b in memberSizes ==> memberSizes[b] == |LastMember(entries[..i], b).value|
    {
      assert entries[..i + 1][..i] == entries[..i];
      if !entries[i].intact {
        return Err(CrcMismatch(entries[i].name));
      }
      match MemberBaseName(entries[i].name) {
        case Some(base) => memberSizes := memberSizes[base := |entries[i].content|];
        case None =>
      }
    }
    assert entries[..|entries|] == entries;
    for k := 0 to |lists.required|
      invariant PresentBefore(lists, entries, k)
    {
      var required := lists.required[k];
      assert required in lists.required;
      if required !in memberSizes {
        return Err(MissingRequiredMember(required));
      }
      if memberSizes[required] == 0 {
        return Err(EmptyMember(required));
      }
    }
    for k := 0 to |lists.optional|
      invariant forall j :: 0 <= j < k ==> MemberNotEmpty(entries, lists.optional[j])
    {
      var optional := lists.optional[k];
      assert optional in lists.optional;
      if optional in memberSizes && memberSizes[optional] == 0 {
        return Err(EmptyMember(optional));
      }
    }
    r := Ok(());
  }

  predicate MemberOnDisk(dir: Files, name: string)
  {
    name in dir && dir[name] != ""
  }

  /** The resume check on an extraction: every required member is there, under its exact name, with data. */
  predicate RequiredOnDisk(lists: MemberLists, dir: Files)
  {
    forall m :: m in lists.required ==> MemberOnDisk(dir, m)
  }

  /** The k-th required member is the first one missing or empty on disk, and `e` says which it is. */
  predicate FirstOffDisk(lists: MemberLists, dir: Files, k: nat, e: ArchiveError)
    requires k < |lists.required|
  {
    var name := lists.required[k];
    && (forall j :: 0 <= j < k ==> MemberOnDisk(dir, lists.required[j]))
    && !MemberOnDisk(dir, name)
    && e == if name in dir then EmptyAfterExtraction(name) else MissingAfterExtraction(name)
  }

  /** Scans the required members with early exit; the error names the first one at fault. */
  method VerifyExtractedMembers(lists: MemberLists, dir: Files) returns (r: Result<(), ArchiveError>)
    ensures r.Ok? <==> RequiredOnDisk(lists, dir)
    ensures r.Err? ==> exists k :: 0 <= k < |lists.required| && FirstOffDisk(lists, dir, k, r.error)
  {
    for k := 0 to |lists.required|
      invariant forall j :: 0 <= j < k ==> MemberOnDisk(dir, lists.required[j])
    {
      var required := lists.required[k];
      assert required in lists.required;
      if required !in dir {
        r := Err(MissingAfterExtraction(required));
        assert FirstOffDisk(lists, dir, k, r.error);
        return;
      }
      if dir[required] == "" {
        r := Err(EmptyAfterExtraction(required));
        assert FirstOffDisk(lists, dir, k, r.error);
        return;
      }
    }
    r := Ok(());
  }

  /** The directory a full extraction leaves: a later entry overwrites an earlier one of the same name. */
  function FullExtraction(entries: seq<Entry>): Files
  {
    if entries == [] then map[]
    else
      var last := entries[|entries| - 1];
      FullExtraction(entries[..|entries| - 1])[last.name := last.content]
  }

  /** Whether `zip` has an entry of this very name and content. */
  predicate HasEntry(zip: ZipFile, name: string, content: string)
  {
    zip.Readable? && exists i :: 0 <= i < |zip.entries| && zip.entries[i].name == name && zip.entries[i].content == content
  }

  /** Every file of `dir` is a member of `zip`, byte for byte. */
  predicate FromArchive(zip: ZipFile, dir: Files)
  {
    forall n :: n in dir ==> HasEntry(zip, n, dir[n])
  }

  lemma {:induction false} ExtractedFromArchive(entries: seq<Entry>, k: nat)
    requires k <= |entries|
    ensures FromArchive(Readable(entries), FullExtraction(entries[..k]))
    ensures forall i :: 0 <= i < k ==> entries[i].name in FullExtraction(entries[..k])
  {
    if k > 0 {
      ExtractedFromArchive(entries, k - 1);
      assert entries[..k][..k - 1] == entries[..k - 1];
    }
  }

  /** What Extract and Validate together accept. */
  predicate Extractable(lists: MemberLists, zip: ZipFile)
  {
    zip.Readable? && MembersSound(lists, zip.entries) && RequiredOnDisk(lists, FullExtraction(zip.entries))
  }

  /** The content of the last entry with exactly this name. */
  function LastNamed(entries: seq<Entry>, name: string): Option<string>
  {
    if entries == [] then None
    else if entries[|entries| - 1].name == name then Some(entries[|entries| - 1].content)
    else LastNamed(entries[..|entries| - 1], name)
  }

  lemma {:induction false} ExtractedIsLastNamed(entries: seq<Entry>, name: string)
    ensures LastNamed(entries, name) == if name in FullExtraction(entries) then Some(FullExtraction(entries)[name]) else None
  {
    if entries != [] {
      ExtractedIsLastNamed(entries[..|entries| - 1], name);
    }
  }

  /**
   Member names are matched without regard to case before extraction but exactly after it,
   so a sound archive is accepted if and only if each required member is also spelled in
   lower case, and its last such spelling carries data.
   */
  lemma SoundArchiveAcceptedIffExactNames(lists: MemberLists, entries: seq<Entry>)
    requires MembersSound(lists, entries)
    ensures Extractable(lists, Readable(entries)) <==>
      forall m :: m in lists.required ==> LastNamed(entries, m).Some? && LastNamed(entries, m).value != ""
  {
    forall m | m in lists.required {
      ExtractedIsLastNamed(entries, m);
    }
    if forall m :: m in lists.required ==> LastNamed(entries, m).Some? && LastNamed(entries, m).value != "" {
      forall m | m in lists.required ensures MemberOnDisk(FullExtraction(entries), m) {
        ExtractedIsLastNamed(entries, m);
      }
    }
  }

  /** The five required members, with the first one spelled `Stops.txt`. */
  function CapitalisedArchive(): seq<Entry>
  {
    [ Entry("Stops.txt", "x", true), Entry("trips.txt", "x", true), Entry("routes.txt", "x", true),
      Entry("stop_times.txt", "x", true), Entry("calendar_dates.txt", "x", true) ]
  }

  lemma PlainName(name: string)
    requires name != "" && name != "." && name != ".." && '/' !in name
    ensures MemberBaseName(name) == Some(Lower(name))
  {
  }

  lemma LowerFixes(name: string)
    requires |name| > 2 && forall i :: 0 <= i < |name| ==> !('A' <= name[i] <= 'Z') && name[i] != '/'
    ensures MemberBaseName(name) == Some(name)
  {
    PlainName(name);
    assert Lower(name) == name;
  }

  lemma CapitalisedStops()
    ensures MemberBaseName("Stops.txt") == Some("stops.txt")
  {
    PlainName("Stops.txt");
    assert Lower("Stops.txt") == "stops.txt";
  }

  lemma CapitalisedNames(i: nat)
    requires i < 5
    ensures MemberBaseName(CapitalisedArchive()[i].name) == Some(GTFS_MEMBERS.required[i])
  {
    match i
    case 0 => CapitalisedStops();
    case 1 => LowerFixes("trips.txt");
    case 2 => LowerFixes("routes.txt");
    case 3 => LowerFixes("stop_times.txt");
    case _ => LowerFixes("calendar_dates.txt");
  }

  lemma CapitalisedIsSound()
    ensures MembersSound(GTFS_MEMBERS, CapitalisedArchive())
  {
    var es := CapitalisedArchive();
    forall m | m in GTFS_MEMBERS.required ensures MemberPresent(es, m) {
      var i :| 0 <= i < 5 && GTFS_MEMBERS.required[i] == m;
      CapitalisedNames(i);
      LastMemberFound(es, m, i);
    }
    forall m | m in GTFS_MEMBERS.optional ensures MemberNotEmpty(es, m) {
      LastMemberContent(es, m);
    }
  }

  /** A differently-cased required member passes the first check and fails the second. */
  lemma CapitalisedMemberRejected()
    ensures MembersSound(GTFS_MEMBERS, CapitalisedArchive())
    ensures !Extractable(GTFS_MEMBERS, Readable(CapitalisedArchive()))
  {
    CapitalisedIsSound();
    var es := CapitalisedArchive();
    ExtractedFromArchive(es, 5);
    assert es[..5] == es;
    var stops := GTFS_MEMBERS.required[0];
    forall i | 0 <= i < 5 ensures es[i].name != stops {
      assert es[i].name[0] != stops[0] || es[i].name[1] != stops[1] || |es[i].name| != |stops|;
    }
    assert stops in GTFS_MEMBERS.required && !MemberOnDisk(FullExtraction(es), stops);
  }

  lemma {:induction false} LastMemberFound(entries: seq<Entry>, base: string, i: nat)
    requires i < |entries| && MemberBaseName(entries[i].name) == Some(base)
    requires forall j :: 0 <= j < |entries| ==> entries[j].content != ""
    ensures MemberPresent(entries, base)
  {
    if MemberBaseName(entries[|entries| - 1].name) != Some(base) {
      LastMemberFound(entries[..|entries| - 1], base, i);
    }
  }

  lemma {:induction false} LastMemberContent(entries: seq<Entry>, base: string)
    requires forall j :: 0 <= j < |entries| ==> entries[j].content != ""
    ensures MemberNotEmpty(entries, base)
  {
    if entries != [] {
      LastMemberContent(entries[..|entries| - 1], base);
    }
  }

  /** An archive of just these members, each with the same data. */
  function PlainArchive(names: seq<string>): seq<Entry>
  {
    seq(|names|, i requires 0 <= i < |names| => Entry(names[i], "x", true))
  }

  lemma RequiredBaseName(i: nat)
    requires i < |GTFS_MEMBERS.required|
    ensures MemberBaseName(GTFS_MEMBERS.required[i]) == Some(GTFS_MEMBERS.required[i])
  {
    match i
    case 0 => LowerFixes("stops.txt");
    case 1 => LowerFixes("trips.txt");
    case 2 => LowerFixes("routes.txt");
    case 3 => LowerFixes("stop_times.txt");
    case _ => LowerFixes("calendar_dates.txt");
  }

  lemma PlainArchiveIsSound(es: seq<Entry>)
    requires es == PlainArchive(GTFS_MEMBERS.required)
    ensures MembersSound(GTFS_MEMBERS, es)
  {
    forall m | m in GTFS_MEMBERS.required ensures MemberPresent(es, m) {
      var i :| 0 <= i < |GTFS_MEMBERS.required| && GTFS_MEMBERS.required[i] == m;
      RequiredBaseName(i);
      LastMemberFound(es, m, i);
    }
    forall m | m in GTFS_MEMBERS.optional ensures MemberNotEmpty(es, m) {
      LastMemberContent(es, m);
    }
  }

  lemma PlainArchiveOnDisk(names: seq<string>, es: seq<Entry>)
    requires es == PlainArchive(names)
    ensures forall m :: m in names ==> MemberOnDisk(FullExtraction(es), m)
  {
    var dir := FullExtraction(es);
    ExtractedFromArchive(es, |es|);
    assert es[..|es|] == es;
    forall m | m in names ensures MemberOnDisk(dir, m) {
      var i :| 0 <= i < |names| && names[i] == m;
      assert es[i].name in dir && HasEntry(Readable(es), m, dir[m]);
    }
  }

  /** The five required members alone make an acceptable archive. */
  lemma PlainArchiveAccepted()
    ensures Extractable(GTFS_MEMBERS, Readable(PlainArchive(GTFS_MEMBERS.required)))
  {
    PlainArchiveIsSound(PlainArchive(GTFS_MEMBERS.required));
    PlainArchiveOnDisk(GTFS_MEMBERS.required, PlainArchive(GTFS_MEMBERS.required));
  }
}
