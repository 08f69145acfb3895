/**
 Version identity and upstream resource naming (domain.rs).

 A version id is an eight-digit string. The model carries the number it spells;
 `ParsePrinted`, `PrintParsed` and `OrderIsNumeric` show that nothing is lost:
 the two representations are in bijection and have the same order.
 */
module Domain {
  import opened Wrappers
  import opened Text

  const VERSION_LENGTH: nat := 8

  type VersionId = n: nat | n < 100_000_000

  datatype VersionIdError = NotEightDigits(raw: string)

  predicate IsDigit(c: char)
  {
    '0' <= c <= '9'
  }

  predicate AllDigits(s: string)
  {
    forall i :: 0 <= i < |s| ==> IsDigit(s[i])
  }

  /** The number a digit string spells. */
  function Number(s: string): (n: nat)
    requires AllDigits(s)
  {
    if s == "" then 0
    else 10 * Number(s[..|s| - 1]) + (s[|s| - 1] as int - '0' as int)
  }

  /** The `width` low decimal digits of `n`, zero padded. */
  function Digits(n: nat, width: nat): (s: string)
    ensures |s| == width && AllDigits(s)
  {
    if width == 0 then ""
    else Digits(n / 10, width - 1) + [(n % 10 + '0' as int) as char]
  }

  function Power10(k: nat): (p: nat)
    ensures p >= 1
  {
    if k == 0 then 1 else 10 * Power10(k - 1)
  }

  lemma {:induction false} NumberOfDigits(n: nat, width: nat)
    requires n < Power10(width)
    ensures Number(Digits(n, width)) == n
  {
    if width > 0 {
      NumberOfDigits(n / 10, width - 1);
      var s, head := Digits(n, width), Digits(n / 10, width - 1);
      assert s == head + [(n % 10 + '0' as int) as char] && s[..|s| - 1] == head;
    }
  }

  lemma {:induction false} DigitsOfNumber(s: string)
    requires AllDigits(s)
    ensures Number(s) < Power10(|s|) && Digits(Number(s), |s|) == s
  {
    if s != "" {
      DigitsOfNumber(s[..|s| - 1]);
      assert s == s[..|s| - 1] + [s[|s| - 1]];
    }
  }

  lemma Power10Of8()
    ensures Power10(VERSION_LENGTH) == 100_000_000
  {
    assert Power10(4) == 10_000;
    assert Power10(6) == 1_000_000;
  }

  function AsStr(v: VersionId): (s: string)
    ensures |s| == VERSION_LENGTH && AllDigits(s)
  {
    Digits(v, VERSION_LENGTH)
  }

  function Parse(raw: string): (r: Result<VersionId, VersionIdError>)
    ensures r.Ok? <==> |raw| == VERSION_LENGTH && AllDigits(raw)
  {
    if |raw| == VERSION_LENGTH && AllDigits(raw) then
      DigitsOfNumber(raw);
      Power10Of8();
      Ok(Number(raw))
    else Err(NotEightDigits(raw))
  }

  /** Printing then parsing a version id gives it back. */
  lemma ParsePrinted(v: VersionId)
    ensures Parse(AsStr(v)) == Ok(v)
  {
    Power10Of8();
    NumberOfDigits(v, VERSION_LENGTH);
  }

  /** Whatever parses prints back as the very string that was parsed. */
  lemma PrintParsed(raw: string)
    requires Parse(raw).Ok?
    ensures AsStr(Parse(raw).value) == raw
  {
    DigitsOfNumber(raw);
  }

  /** Comparing all but the last character first, then the last one, is the same order. */
  lemma LexByLast(a: string, b: string)
    requires |a| == |b| > 0
    ensures var m := |a| - 1;
      LexLess(a, b) <==> LexLess(a[..m], b[..m]) || (a[..m] == b[..m] && a[m] < b[m])
  {
    var m := |a| - 1;
    var a', b' := a[..m], b[..m];
    if LexLess(a, b) {
      var i :| 0 <= i < |a| && a[..i] == b[..i] && a[i] < b[i];
      if i < m {
        assert a'[..i] == a[..i] && b'[..i] == b[..i];
      }
    }
    if LexLess(a', b') {
      var i :| 0 <= i < m && a'[..i] == b'[..i] && a'[i] < b'[i];
      assert a'[..i] == a[..i] && b'[..i] == b[..i];
    }
  }

  lemma TensThenUnits(a: nat, b: nat, x: nat, y: nat)
    requires x < 10 && y < 10
    ensures 10 * a + x < 10 * b + y <==> a < b || (a == b && x < y)
  {
  }

  function DigitValue(c: char): nat
    requires IsDigit(c)
  {
    c as int - '0' as int
  }

  lemma {:induction false} LexIsNumeric(a: string, b: string)
    requires |a| == |b| && AllDigits(a) && AllDigits(b)
    ensures LexLess(a, b) <==> Number(a) < Number(b)
  {
    if a != "" {
      var m := |a| - 1;
      var a', b' := a[..m], b[..m];
      LexByLast(a, b);
      LexIsNumeric(a', b');
      SameNumber(a', b');
      TensThenUnits(Number(a'), Number(b'), DigitValue(a[m]), DigitValue(b[m]));
    }
  }

  lemma SameNumber(a: string, b: string)
    requires |a| == |b| && AllDigits(a) && AllDigits(b)
    ensures Number(a) == Number(b) <==> a == b
  {
    DigitsOfNumber(a);
    DigitsOfNumber(b);
  }

  /** The string order version ids derive is exactly chronological, that is numeric, order. */
  lemma OrderIsNumeric(v: VersionId, u: VersionId)
    ensures LexLess(AsStr(v), AsStr(u)) <==> v < u
  {
    Power10Of8();
    NumberOfDigits(v, VERSION_LENGTH);
    NumberOfDigits(u, VERSION_LENGTH);
    LexIsNumeric(AsStr(v), AsStr(u));
  }

  /** One GTFS zip resource as listed upstream; fields that only feed logs are left out. */
  datatype UpstreamResource = UpstreamResource(
    version: VersionId,
    namePrefix: string,
    downloadUrl: string,
    publisherLastModified: Option<string>,
    upstreamHash: Option<string>)

  function SnapshotDirName(namePrefix: string, version: VersionId): (name: string)
    ensures |name| == |namePrefix| + 1 + VERSION_LENGTH
  {
    namePrefix + "_" + AsStr(version)
  }

  function StripZip(filename: string): string
  {
    if EndsWith(filename, ".zip") then filename[..|filename| - 4]
    else if EndsWith(filename, ".ZIP") then filename[..|filename| - 4]
    else filename
  }

  /** `lower` is the lower-casing of the prefix; every property below holds for any such function. */
  function ParseResourceFilename(lower: string -> string, filename: string): Result<(string, VersionId), VersionIdError>
  {
    match RSplitOnce(StripZip(filename), '_')
    case None => Err(NotEightDigits(filename))
    case Some(parts) =>
      match Parse(Without(parts.1, '-'))
      case Ok(version) => Ok((lower(parts.0), version))
      case Err(_) => Err(NotEightDigits(filename))
  }

  lemma DigitsAreNot(s: string, c: char)
    requires AllDigits(s) && !IsDigit(c)
    ensures c !in s
  {
  }

  /** A printed directory name parses back to the lowercased prefix and the version, underscores in the prefix included. */
  lemma ParsePrintedDirName(lower: string -> string, prefix: string, v: VersionId)
    ensures ParseResourceFilename(lower, SnapshotDirName(prefix, v)) == Ok((lower(prefix), v))
  {
    var name := SnapshotDirName(prefix, v);
    assert IsDigit(name[|name| - 1]) by {
      assert name[|name| - 1] == AsStr(v)[VERSION_LENGTH - 1];
    }
    if EndsWith(name, ".zip") {
      EndsWithLast(name, ".zip");
      assert false;
    }
    if EndsWith(name, ".ZIP") {
      EndsWithLast(name, ".ZIP");
      assert false;
    }
    DigitsAreNot(AsStr(v), '_');
    DigitsAreNot(AsStr(v), '-');
    WithoutAbsent(AsStr(v), '-');
    RSplitOnceUnique(prefix, '_', AsStr(v));
    ParsePrinted(v);
  }

  /** `YYYY-MM-DD` for the eight digits of a version. */
  function Hyphenated(v: VersionId): string
  {
    AsStr(v)[..4] + "-" + AsStr(v)[4..6] + "-" + AsStr(v)[6..]
  }

  lemma ParseStem(lower: string -> string, prefix: string, spelling: string, v: VersionId, extension: string)
    requires extension == ".zip" || extension == ".ZIP"
    requires '_' !in spelling && Without(spelling, '-') == AsStr(v)
    ensures ParseResourceFilename(lower, prefix + "_" + spelling + extension) == Ok((lower(prefix), v))
  {
    StripExtension(prefix + "_" + spelling, extension);
    RSplitOnceUnique(prefix, '_', spelling);
    ParsePrinted(v);
  }

  lemma HyphenatedSpelling(v: VersionId)
    ensures '_' !in Hyphenated(v) && Without(Hyphenated(v), '-') == AsStr(v)
  {
    DigitsAreNot(AsStr(v), '_');
    DigitsAreNot(AsStr(v), '-');
    WithoutHyphens(AsStr(v));
  }

  lemma PlainSpelling(v: VersionId)
    ensures '_' !in AsStr(v) && Without(AsStr(v), '-') == AsStr(v)
  {
    DigitsAreNot(AsStr(v), '_');
    DigitsAreNot(AsStr(v), '-');
    WithoutAbsent(AsStr(v), '-');
  }

  /** Both published spellings of a file name, with either extension case, name the same version. */
  lemma ParsePublishedFilename(lower: string -> string, prefix: string, v: VersionId, extension: string)
    requires extension == ".zip" || extension == ".ZIP"
    ensures ParseResourceFilename(lower, prefix + "_" + AsStr(v) + extension) == Ok((lower(prefix), v))
    ensures ParseResourceFilename(lower, prefix + "_" + Hyphenated(v) + extension) == Ok((lower(prefix), v))
  {
    PlainSpelling(v);
    ParseStem(lower, prefix, AsStr(v), v, extension);
    HyphenatedSpelling(v);
    ParseStem(lower, prefix, Hyphenated(v), v, extension);
  }

  lemma StripExtension(stem: string, extension: string)
    requires extension == ".zip" || extension == ".ZIP"
    ensures StripZip(stem + extension) == stem
  {
    var f := stem + extension;
    assert f[|f| - 4..] == extension && f[..|f| - 4] == stem;
  }

  lemma WithoutHyphens(d: string)
    requires |d| == VERSION_LENGTH && '-' !in d
    ensures Without(d[..4] + "-" + d[4..6] + "-" + d[6..], '-') == d
  {
    var left := d[..4] + "-" + d[4..6];
    WithoutInfix(left, '-', d[6..]);
    WithoutInfix(d[..4], '-', d[4..6]);
    WithoutAbsent(d[..4], '-');
    assert d == d[..4] + d[4..6] + d[6..];
  }

  /** A directory name determines both the prefix and the version it was made from. */
  lemma DirNameInjective(p: string, v: VersionId, q: string, u: VersionId)
    ensures SnapshotDirName(p, v) == SnapshotDirName(q, u) <==> p == q && v == u
  {
    DigitsAreNot(AsStr(v), '_');
    DigitsAreNot(AsStr(u), '_');
    RSplitOnceUnique(p, '_', AsStr(v));
    RSplitOnceUnique(q, '_', AsStr(u));
    ParsePrinted(v);
    ParsePrinted(u);
  }

  predicate IsHexDigit(c: char)
  {
    IsDigit(c) || 'a' <= c <= 'f' || 'A' <= c <= 'F'
  }

  /** Whether a publisher hash is recognisable as a hex SHA-256. */
  predicate LooksLikeSha256(hash: string)
  {
    |hash| == 64 && forall i :: 0 <= i < |hash| ==> IsHexDigit(hash[i])
  }

  /** Rejects exactly a recognisable SHA-256 that differs, case aside, from the computed one. */
  predicate HashAccepted(upstreamHash: Option<string>, computed: string)
  {
    match upstreamHash
    case None => true
    case Some(hash) => LooksLikeSha256(hash) ==> Lower(hash) == Lower(computed)
  }

  // ---- What the hash check means ----

  /** 64 hexadecimal digits in either case. */
  predicate SixtyFourHex(h: string)
  {
    && |h| == 64
    && forall i :: 0 <= i < 64 ==> '0' <= h[i] <= '9' || 'a' <= h[i] <= 'f' || 'A' <= h[i] <= 'F'
  }

  /** `small` is the lower-case form of the ASCII capital `large`. */
  predicate CaseOf(large: char, small: char)
  {
    'A' <= large <= 'Z' && small as int == large as int - 'A' as int + 'a' as int
  }

  predicate EqualUpToCase(a: string, b: string)
  {
    |a| == |b| && forall i :: 0 <= i < |a| ==> a[i] == b[i] || CaseOf(a[i], b[i]) || CaseOf(b[i], a[i])
  }

  lemma LowerCharsAgree(x: char, y: char)
    ensures LowerChar(x) == LowerChar(y) <==> x == y || CaseOf(x, y) || CaseOf(y, x)
  {
  }

  lemma LowerAgrees(a: string, b: string)
    ensures Lower(a) == Lower(b) <==> EqualUpToCase(a, b)
  {
    forall i | 0 <= i < |a| && i < |b|
      ensures Lower(a)[i] == Lower(b)[i] <==> a[i] == b[i] || CaseOf(a[i], b[i]) || CaseOf(b[i], a[i])
    {
      LowerCharsAgree(a[i], b[i]);
    }
    if EqualUpToCase(a, b) {
      assert Lower(a) == Lower(b);
    }
    if Lower(a) == Lower(b) {
      assert |Lower(a)| == |Lower(b)|;
    }
  }

  /** The check refuses exactly 64 hexadecimal digits that differ from the computed hash by more than case. */
  lemma HashAcceptedMeans(upstreamHash: Option<string>, computed: string)
    ensures HashAccepted(upstreamHash, computed) <==>
      upstreamHash.None? || !SixtyFourHex(upstreamHash.value) || EqualUpToCase(upstreamHash.value, computed)
  {
    if upstreamHash.Some? {
      LowerAgrees(upstreamHash.value, computed);
    }
  }
}
