/** The blob container the portal keeps its penalty workbooks in (`cpo` in
    the `parkingchargenotices` account): availability, upload under a
    sanitised name, download, listing, and the choice of which blobs count
    as workbooks. */
module BlobStore {
  import opened Wrappers
  import opened JsText
  import JsNumber
  import opened Calendar
  import opened JsDate
  import opened Cells
  import opened Tables

  const AccountName := "parkingchargenotices"
  const ContainerName := "cpo"

  /** Whether the service came up, and whether a connection string was
      configured (which picks the wording of the refusal). */
  datatype Availability = Available | Unavailable(hasConnectionString: bool)

  /** What a blob holds: a workbook whose first sheet the reader decodes, or
      bytes it cannot read (the reader's message). */
  datatype Content = Workbook(first: Sheet) | Unreadable(reason: string)

  datatype Blob = Blob(name: string, content: Content, contentType: string)

  /** The container's blobs in the order they were first written; listing
      sorts them by name. */
  datatype Container = Container(availability: Availability, baseUrl: string, blobs: seq<Blob>)

  function BlobName(b: Blob): string { b.name }

  /** Names are unique within a container. */
  predicate ValidContainer(c: Container) {
    Distinct(c.blobs, BlobName)
  }

  const UnavailablePrefix := "Azure Storage is not available"

  const ConnectionStringHint := ". Please check your connection string configuration."
  const ManagedIdentityHint :=
    ". For managed identity: ensure proper permissions. For development: set AZURE_STORAGE_CONNECTION_STRING or run \"az login\"."

  /** The error thrown by every operation while the service is unavailable;
      the wording depends on whether a connection string was configured. */
  function UnavailableMessage(hasConnectionString: bool): (m: string)
    ensures StartsWith(m, UnavailablePrefix)
  {
    var rest := if hasConnectionString then ConnectionStringHint else ManagedIdentityHint;
    ConcatStartsWith(UnavailablePrefix, rest);
    UnavailablePrefix + rest
  }

  const NotExistText := "does not exist"

  /** The service's message for a download of a name that holds no blob:
      "The specified blob does not exist." */
  const BlobMissingMessage := "The specified blob " + NotExistText + "."

  /** Why a storage call failed. */
  datatype StoreError =
    | StorageUnavailable(hasConnectionString: bool)
    | BlobMissing
    | ReadFailed(reason: string)

  /** The message of the error a failed call throws. */
  function ErrorMessage(e: StoreError): string {
    match e
    case StorageUnavailable(h) => UnavailableMessage(h)
    case BlobMissing => BlobMissingMessage
    case ReadFailed(reason) => reason
  }

  // ---------------------------------------------------------------------------
  // Names

  /** The characters a blob name keeps: `[a-zA-Z0-9._-]`. */
  predicate NameChar(c: char) {
    'a' <= c <= 'z' || 'A' <= c <= 'Z' || '0' <= c <= '9' || c == '.' || c == '_' || c == '-'
  }

  predicate CleanName(s: string) {
    forall i :: 0 <= i < |s| ==> NameChar(s[i])
  }

  /** `fileName.replace(/[^a-zA-Z0-9._-]/g, '_')`: every other character
      becomes an underscore, one for one. */
  function SanitiseName(s: string): (r: string)
    ensures |r| == |s| && CleanName(r)
    ensures forall i :: 0 <= i < |s| ==> r[i] == if NameChar(s[i]) then s[i] else '_'
  {
    if s == [] then [] else [if NameChar(s[0]) then s[0] else '_'] + SanitiseName(s[1..])
  }

  /** `name.toLowerCase().endsWith('.xlsx') || ... endsWith('.xls')`. */
  predicate IsWorkbookName(name: string) {
    EndsWith(ToLower(name), ".xlsx") || EndsWith(ToLower(name), ".xls")
  }

  /** The workbooks among the listed names, in listing order. */
  function WorkbookNames(names: seq<string>): (r: seq<string>)
    ensures |r| <= |names|
    ensures forall n :: n in r <==> n in names && IsWorkbookName(n)
  {
    Filter(names, IsWorkbookName)
  }

  // ---------------------------------------------------------------------------
  // Operations

  /** `uploadFile`: the blob is written under the sanitised name, replacing
      one already there, with the given content type or
      `application/octet-stream`; the result is the blob's URL. */
  function Upload(c: Container, name: string, content: Content, contentType: Option<string>)
    : (r: Result<(Container, string), StoreError>)
    ensures c.availability.Unavailable? ==> r == Failure(StorageUnavailable(c.availability.hasConnectionString))
    ensures c.availability.Available? ==> r.Success?
    ensures r.Success? ==> r.value.1 == BlobUrl(c.baseUrl, SanitiseName(name))
    ensures r.Success? ==> r.value.0.availability == c.availability && r.value.0.baseUrl == c.baseUrl
    ensures r.Success? ==> exists b :: b in r.value.0.blobs && b.name == SanitiseName(name) && b.content == content
  {
    match c.availability
    case Unavailable(hasConn) => Failure(StorageUnavailable(hasConn))
    case Available =>
      var clean := SanitiseName(name);
      Success((Write(c, Blob(clean, content, ContentTypeOr(contentType))), BlobUrl(c.baseUrl, clean)))
  }

  /** The URL of a blob in the container. */
  function BlobUrl(base: string, name: string): string {
    base + "/" + ContainerName + "/" + name
  }

  const OctetStream := "application/octet-stream"

  /** `contentType || 'application/octet-stream'`. */
  function ContentTypeOr(contentType: Option<string>): (r: string)
    ensures r != []
  {
    if contentType.Some? && contentType.value != [] then contentType.value else OctetStream
  }

  /** Writing a blob: it replaces the first one of that name in place, or
      goes at the end; a lookup of the name then finds it. */
  /** The container after a write. */
  function Write(c: Container, blob: Blob): (c': Container)
    ensures c'.availability == c.availability && c'.baseUrl == c.baseUrl
    ensures exists b :: b in c'.blobs && b.name == blob.name && b.content == blob.content
  {
    c.(blobs := Put(c.blobs, blob))
  }

  function Put(blobs: seq<Blob>, blob: Blob): (r: seq<Blob>)
    ensures blob in r
    ensures forall b :: b in r ==> b in blobs || b == blob
  {
    match FindKey(blobs, BlobName, blob.name)
    case Some(k) =>
      assert blobs[k := blob][k] == blob;
      blobs[k := blob]
    case None => blobs + [blob]
  }

  /** After a write, the lookup of the name finds the blob written. */
  lemma PutThenFind(blobs: seq<Blob>, blob: Blob)
    ensures var r := Put(blobs, blob);
      FindKey(r, BlobName, blob.name).Some? && r[FindKey(r, BlobName, blob.name).value] == blob
  {
    match FindKey(blobs, BlobName, blob.name)
    case Some(k) => FindKeyAt(blobs[k := blob], BlobName, blob.name, k);
    case None => FindKeyAt(blobs + [blob], BlobName, blob.name, |blobs|);
  }

  /** Names stay unique under writes. */
  lemma PutDistinct(blobs: seq<Blob>, blob: Blob)
    requires Distinct(blobs, BlobName)
    ensures Distinct(Put(blobs, blob), BlobName)
  {
    match FindKey(blobs, BlobName, blob.name)
    case Some(k) => DistinctReplace(blobs, k, blob, BlobName);
    case None => DistinctAppend(blobs, blob, BlobName);
  }

  /** Downloading what was just uploaded, under the name the upload reports,
      gives back the uploaded workbook (or the reader's error for bytes it
      cannot read). */
  lemma UploadThenDownload(c: Container, name: string, content: Content, contentType: Option<string>)
    requires c.availability.Available?
    ensures var c' := Upload(c, name, content, contentType).value.0;
      Download(c', SanitiseName(name)) == if content.Workbook? then Success(content.first) else Failure(ReadFailed(content.reason))
  {
    PutThenFind(c.blobs, Blob(SanitiseName(name), content, ContentTypeOr(contentType)));
  }

  /** Blob `j` is the first written with this name. */
  predicate FirstNamed(blobs: seq<Blob>, name: string, j: int) {
    0 <= j < |blobs| && blobs[j].name == name && forall i :: 0 <= i < j ==> blobs[i].name != name
  }

  /** Reading the first sheet of downloaded content, or the reader's error. */
  function SheetOf(content: Content): (r: Result<Sheet, StoreError>)
    ensures r.Success? <==> content.Workbook?
  {
    match content
    case Workbook(sheet) => Success(sheet)
    case Unreadable(reason) => Failure(ReadFailed(reason))
  }

  /** `downloadFile` followed by reading the first sheet. */
  function Download(c: Container, name: string): (r: Result<Sheet, StoreError>)
    ensures c.availability.Unavailable? ==> r == Failure(StorageUnavailable(c.availability.hasConnectionString))
    ensures c.availability.Available? && (forall j :: 0 <= j < |c.blobs| ==> c.blobs[j].name != name)
            ==> r == Failure(BlobMissing)
    ensures c.availability.Available? ==>
      forall j :: FirstNamed(c.blobs, name, j) ==> r == SheetOf(c.blobs[j].content)
  {
    match c.availability
    case Unavailable(hasConn) => Failure(StorageUnavailable(hasConn))
    case Available =>
      match FindKey(c.blobs, BlobName, name)
      case None => Failure(BlobMissing)
      case Some(k) =>
        assert forall j :: FirstNamed(c.blobs, name, j) ==> j == k by {
          forall j | FirstNamed(c.blobs, name, j) ensures j == k {
            assert BlobName(c.blobs[j]) == name && BlobName(c.blobs[k]) == name;
          }
        }
        SheetOf(c.blobs[k].content)
  }

  /** In a container with unique names, downloading a stored blob's name
      reads that blob's content. */
  lemma DownloadStored(c: Container, b: Blob)
    requires ValidContainer(c) && c.availability.Available? && b in c.blobs
    ensures Download(c, b.name) == SheetOf(b.content)
  {
    var j :| 0 <= j < |c.blobs| && c.blobs[j] == b;
    DistinctFindKey(c.blobs, BlobName, j);
  }

  /** `listFiles`: every blob name, in the order `listBlobsFlat` pages
      through them, which is name order whatever order they were written in. */
  function ListFiles(c: Container): (r: Result<seq<string>, StoreError>)
    ensures c.availability.Unavailable? ==> r == Failure(StorageUnavailable(c.availability.hasConnectionString))
    ensures c.availability.Available? ==> r.Success?
    ensures r.Success? ==> NamesSorted(r.value) && multiset(r.value) == multiset(Names(c.blobs))
  {
    match c.availability
    case Unavailable(hasConn) => Failure(StorageUnavailable(hasConn))
    case Available => Success(SortNames(Names(c.blobs)))
  }

  /** The service's name order: `a` comes no later than `b` when it is a
      prefix of `b` or is smaller at the first place they differ, comparing
      code points (which is also the order of their UTF-8 bytes). */
  predicate NameBefore(a: string, b: string) {
    a == [] || (b != [] && (a[0] < b[0] || (a[0] == b[0] && NameBefore(a[1..], b[1..]))))
  }

  /** Any two names are comparable. */
  lemma {:induction false} NameBeforeTotal(a: string, b: string)
    ensures NameBefore(a, b) || NameBefore(b, a)
    decreases |a|
  {
    if a != [] && b != [] && a[0] == b[0] {
      NameBeforeTotal(a[1..], b[1..]);
    }
  }

  /** Two names each no later than the other are the same name. */
  lemma {:induction false} NameBeforeAntisymmetric(a: string, b: string)
    requires NameBefore(a, b) && NameBefore(b, a)
    ensures a == b
    decreases |a|
  {
    if a != [] {
      NameBeforeAntisymmetric(a[1..], b[1..]);
      assert a == [a[0]] + a[1..] && b == [b[0]] + b[1..];
    }
  }

  predicate NamesSorted(names: seq<string>) {
    forall i :: 0 < i < |names| ==> NameBefore(names[i - 1], names[i])
  }

  /** `name` put into its place in sorted `names`. */
  function InsertName(name: string, names: seq<string>): (r: seq<string>)
    ensures multiset(r) == multiset(names) + multiset{name}
    ensures NamesSorted(names) ==> NamesSorted(r)
    ensures r != [] && (r[0] == name || (names != [] && r[0] == names[0]))
    decreases |names|
  {
    if names == [] || NameBefore(name, names[0]) then [name] + names
    else
      NameBeforeTotal(name, names[0]);
      assert names == [names[0]] + names[1..];
      [names[0]] + InsertName(name, names[1..])
  }

  /** The names in the service's listing order. */
  function SortNames(names: seq<string>): (r: seq<string>)
    ensures NamesSorted(r) && multiset(r) == multiset(names)
    decreases |names|
  {
    if names == [] then []
    else
      assert names == [names[0]] + names[1..];
      InsertName(names[0], SortNames(names[1..]))
  }

  /** Sorting the listing keeps the number of workbooks among the names. */
  lemma {:induction false} SortKeepsWorkbookCount(names: seq<string>)
    ensures |WorkbookNames(SortNames(names))| == |WorkbookNames(names)|
    decreases |names|
  {
    if names != [] {
      SortKeepsWorkbookCount(names[1..]);
      InsertKeepsWorkbookCount(names[0], SortNames(names[1..]));
      assert names == [names[0]] + names[1..];
      FilterConcat([names[0]], names[1..], IsWorkbookName);
    }
  }

  lemma {:induction false} InsertKeepsWorkbookCount(name: string, names: seq<string>)
    ensures |WorkbookNames(InsertName(name, names))| == |WorkbookNames([name])| + |WorkbookNames(names)|
    decreases |names|
  {
    if names == [] || NameBefore(name, names[0]) {
      FilterConcat([name], names, IsWorkbookName);
    } else {
      InsertKeepsWorkbookCount(name, names[1..]);
      assert names == [names[0]] + names[1..];
      FilterConcat([names[0]], InsertName(name, names[1..]), IsWorkbookName);
      FilterConcat([names[0]], names[1..], IsWorkbookName);
    }
  }

  /** A listing depends only on which names are stored, not on the order
      they were written in: two sorted arrangements of the same names are
      one sequence. */
  lemma {:induction false} SortedPermutationUnique(a: seq<string>, b: seq<string>)
    requires NamesSorted(a) && NamesSorted(b) && multiset(a) == multiset(b)
    ensures a == b
    decreases |a|
  {
    if a != [] {
      SortedHeadsAgree(a, b);
      TailMultiset(a);
      TailMultiset(b);
      SortedTail(a);
      SortedTail(b);
      SortedPermutationUnique(a[1..], b[1..]);
      assert a == [a[0]] + a[1..] && b == [b[0]] + b[1..];
    }
  }

  /** Two sorted arrangements of the same names start with the same name. */
  lemma SortedHeadsAgree(a: seq<string>, b: seq<string>)
    requires NamesSorted(a) && NamesSorted(b) && multiset(a) == multiset(b) && a != []
    ensures b != [] && a[0] == b[0]
  {
    assert |a| == |multiset(a)| == |b|;
    assert a[0] in multiset(b) && b[0] in multiset(a);
    SortedHeadFirst(a, b[0]);
    SortedHeadFirst(b, a[0]);
    NameBeforeAntisymmetric(a[0], b[0]);
  }

  lemma TailMultiset(s: seq<string>)
    requires s != []
    ensures multiset(s[1..]) == multiset(s) - multiset{s[0]}
  {
    assert s == [s[0]] + s[1..];
  }

  lemma SortedTail(s: seq<string>)
    requires NamesSorted(s) && s != []
    ensures NamesSorted(s[1..])
  {
    forall i | 0 < i < |s[1..]| ensures NameBefore(s[1..][i - 1], s[1..][i]) {
      assert s[1..][i - 1] == s[i] && s[1..][i] == s[i + 1];
    }
  }

  /** The head of a sorted listing comes no later than any of its names. */
  lemma {:induction false} SortedHeadFirst(a: seq<string>, x: string)
    requires NamesSorted(a) && x in multiset(a)
    ensures NameBefore(a[0], x)
    decreases |a|
  {
    if a[0] == x {
      NameBeforeReflexive(x);
    } else {
      assert a == [a[0]] + a[1..];
      assert x in multiset(a[1..]);
      SortedHeadFirst(a[1..], x);
      NameBeforeTransitive(a[0], a[1], x);
    }
  }

  lemma {:induction false} NameBeforeReflexive(a: string)
    ensures NameBefore(a, a)
    decreases |a|
  {
    if a != [] {
      NameBeforeReflexive(a[1..]);
    }
  }

  lemma {:induction false} NameBeforeTransitive(a: string, b: string, c: string)
    requires NameBefore(a, b) && NameBefore(b, c)
    ensures NameBefore(a, c)
    decreases |a|
  {
    if a != [] && a[0] == b[0] && b[0] == c[0] {
      NameBeforeTransitive(a[1..], b[1..], c[1..]);
    }
  }

  /** Writing "a.xlsx" into a container holding "b.xlsx" lists "a.xlsx"
      first. */
  lemma ListsInNameOrder(c: Container, a: Blob, b: Blob)
    requires c.availability.Available? && a.name == "a.xlsx" && b.name == "b.xlsx"
    requires c.blobs == [b, a]
    ensures ListFiles(c) == Success(["a.xlsx", "b.xlsx"])
  {
    var r := ListFiles(c).value;
    var listed: seq<string> := ["a.xlsx", "b.xlsx"];
    assert Names(c.blobs) == ["b.xlsx", "a.xlsx"];
    assert multiset(Names(c.blobs)) == multiset(listed);
    AFirst();
    SortedPermutationUnique(r, listed);
  }

  lemma AFirst()
    ensures NamesSorted(["a.xlsx", "b.xlsx"])
  {
    assert "a.xlsx"[0] < "b.xlsx"[0];
  }

  function Names(blobs: seq<Blob>): (r: seq<string>)
    ensures |r| == |blobs| && forall i :: 0 <= i < |blobs| ==> r[i] == blobs[i].name
  {
    if blobs == [] then [] else [blobs[0].name] + Names(blobs[1..])
  }

  // ---------------------------------------------------------------------------
  // The name an upload is stored under

  /** `Date.prototype.toISOString`: `YYYY-MM-DDTHH:mm:ss.sssZ`, with a signed
      six-digit year outside 0-9999. */
  function IsoString(now: int): string {
    var f := FieldsOf(now);
    IsoStamp(IsoYear(f.year), Pad2(f.month), Pad2(f.day), Pad2(f.hour), Pad2(f.minute), Pad2(f.second), Pad3(now % 1000))
  }

  /** The layout of an ISO time, given its printed fields. */
  function IsoStamp(y: string, mo: string, d: string, h: string, mi: string, s: string, ms: string): string {
    y + "-" + mo + "-" + d + "T" + h + ":" + mi + ":" + s + "." + ms + "Z"
  }

  /** `n.toString().padStart(3, '0')`. */
  function Pad3(n: nat): (r: string)
    ensures AllDigits(r)
  {
    var s := NatToString(n);
    var r := PadZeros(s, 3);
    assert forall i :: 0 <= i < |r| ==> IsDigit(r[i]) by {
      forall i | 0 <= i < |r| ensures IsDigit(r[i]) {
        if i >= |r| - |s| {
          assert r[i] == s[i - (|r| - |s|)];
        }
      }
    }
    r
  }

  function IsoYear(y: int): (r: string)
    ensures 0 <= y <= 9999 ==> AllDigits(r)
  {
    if 0 <= y <= 9999 then PadZeros(NatToString(y), 4)
    else (if y < 0 then "-" else "+") + PadZeros(NatToString(JsNumber.Abs(y)), 6)
  }

  /** `.replace(/[:.]/g, '-')`. */
  function Dashed(s: string): (r: string)
    ensures |r| == |s|
    ensures forall i :: 0 <= i < |s| ==> r[i] == if s[i] == ':' || s[i] == '.' then '-' else s[i]
  {
    if s == [] then [] else [if s[0] == ':' || s[0] == '.' then '-' else s[0]] + Dashed(s[1..])
  }

  /** The upload route's blob name: `penalties-<time with dashes>.xlsx`. */
  function UploadName(now: int): (r: string)
    ensures EndsWith(r, ".xlsx")
  {
    Penalties(Dashed(IsoString(now)))
  }

  /** `penalties-<stamp>.xlsx`. */
  function Penalties(stamp: string): (r: string)
    ensures EndsWith(r, ".xlsx")
  {
    ConcatEndsWith("penalties-" + stamp, ".xlsx");
    "penalties-" + stamp + ".xlsx"
  }

  // ---------------------------------------------------------------------------
  // Properties

  /** Sanitising leaves a clean name alone, and only a clean name. */
  lemma SanitiseFixesExactlyClean(s: string)
    ensures SanitiseName(s) == s <==> CleanName(s)
  {
  }

  lemma SanitiseIdempotent(s: string)
    ensures SanitiseName(SanitiseName(s)) == SanitiseName(s)
  {
    SanitiseFixesExactlyClean(SanitiseName(s));
  }

  /** Sanitising keeps the extension, so it never changes whether a name
      counts as a workbook. */
  lemma ToLowerEndsWith(s: string, suffix: string)
    requires CleanName(suffix) && ToLower(suffix) == suffix
    ensures EndsWith(ToLower(s), suffix) ==> EndsWith(ToLower(SanitiseName(s)), suffix)
  {
    if EndsWith(ToLower(s), suffix) {
      var n := |s| - |suffix|;
      forall i | 0 <= i < |suffix|
        ensures ToLower(SanitiseName(s))[n + i] == suffix[i]
      {
        assert LowerChar(s[n + i]) == ToLower(s)[n + i] == suffix[i];
        LowerNameChar(s[n + i]);
      }
      assert ToLower(SanitiseName(s))[n..] == suffix;
    }
  }

  /** Lower-casing turns no other character into a name character. */
  lemma LowerNameChar(c: char)
    ensures NameChar(LowerChar(c)) ==> NameChar(c)
  {
  }

  lemma WorkbookNameSurvivesSanitising(s: string)
    ensures IsWorkbookName(s) ==> IsWorkbookName(SanitiseName(s))
  {
    assert ToLower(".xlsx") == ".xlsx" && ToLower(".xls") == ".xls";
    ToLowerEndsWith(s, ".xlsx");
    ToLowerEndsWith(s, ".xls");
  }

  /** The workbook test ignores case: `A.XLSX` counts. */
  lemma WorkbookNameIgnoresCase(s: string)
    ensures IsWorkbookName(ToUpper(s)) <==> IsWorkbookName(s)
  {
    assert ToLower(ToUpper(s)) == ToLower(s);
  }

  /** The name an upload is stored under is already clean and is a workbook
      name, so the route's second step downloads exactly the blob its first
      step wrote. Holds for any time in the years 0 to 9999. */
  lemma UploadNameIsClean(now: int)
    requires 0 <= FieldsOf(now).year <= 9999
    ensures CleanName(UploadName(now)) && SanitiseName(UploadName(now)) == UploadName(now)
    ensures IsWorkbookName(UploadName(now))
  {
    IsoStringChars(now);
    PenaltiesClean(Dashed(IsoString(now)));
    SanitiseFixesExactlyClean(UploadName(now));
  }

  /** A clean stamp gives a clean workbook name. */
  lemma PenaltiesClean(stamp: string)
    requires CleanName(stamp)
    ensures CleanName(Penalties(stamp)) && IsWorkbookName(Penalties(stamp))
  {
    var a := "penalties-" + stamp;
    HeadAndExtensionClean();
    CleanConcat("penalties-", stamp);
    CleanConcat(a, ".xlsx");
    LowerEndsWith(a, ".xlsx");
  }

  /** The fixed parts of an upload name are clean, and the extension is
      already lower case. */
  lemma HeadAndExtensionClean()
    ensures CleanName("penalties-") && CleanName(".xlsx") && ToLower(".xlsx") == ".xlsx"
  {
    var e := ".xlsx";
    var l := ToLower(e);
    assert l[0] == '.' && l[1] == 'x' && l[2] == 'l' && l[3] == 's' && l[4] == 'x';
  }

  lemma CleanConcat(a: string, b: string)
    requires CleanName(a) && CleanName(b)
    ensures CleanName(a + b)
  {
    assert forall i :: |a| <= i < |a + b| ==> (a + b)[i] == b[i - |a|];
  }

  lemma LowerEndsWith(a: string, b: string)
    requires ToLower(b) == b
    ensures EndsWith(ToLower(a + b), b)
  {
    var t := ToLower(a + b);
    forall i | 0 <= i < |b| ensures t[|a|..][i] == b[i] {
      assert t[|a|..][i] == t[|a| + i] == LowerChar((a + b)[|a| + i]);
      assert (a + b)[|a| + i] == b[i];
      assert ToLower(b)[i] == LowerChar(b[i]);
    }
    assert t[|a|..] == b;
  }

  /** The ISO text is digits, `-`, `:`, `.`, `T` and `Z` while the year has
      four digits, so with `:` and `.` replaced it is clean. */
  lemma IsoStringChars(now: int)
    requires 0 <= FieldsOf(now).year <= 9999
    ensures CleanName(Dashed(IsoString(now)))
  {
    var f := FieldsOf(now);
    IsoChars(IsoYear(f.year), Pad2(f.month), Pad2(f.day), Pad2(f.hour), Pad2(f.minute), Pad2(f.second), Pad3(now % 1000));
  }

  predicate IsoChar(c: char) {
    IsDigit(c) || c == '-' || c == ':' || c == '.' || c == 'T' || c == 'Z'
  }

  lemma IsoChars(y: string, mo: string, d: string, h: string, mi: string, s: string, ms: string)
    requires AllDigits(y) && AllDigits(mo) && AllDigits(d) && AllDigits(h) && AllDigits(mi) && AllDigits(s) && AllDigits(ms)
    ensures CleanName(Dashed(IsoStamp(y, mo, d, h, mi, s, ms)))
  {
    var iso := IsoStamp(y, mo, d, h, mi, s, ms);
    assert forall i :: 0 <= i < |iso| ==> IsoChar(iso[i]);
  }

  /** A download of a name nobody uploaded fails with the service's own
      message, which names the missing blob as not existing. */
  lemma MissingBlob(c: Container, name: string)
    requires c.availability.Available?
    requires forall j :: 0 <= j < |c.blobs| ==> c.blobs[j].name != name
    ensures Download(c, name) == Failure(BlobMissing)
    ensures Contains(ErrorMessage(BlobMissing), NotExistText)
  {
    ContainsMiddle("The specified blob ", NotExistText, ".");
  }
}
