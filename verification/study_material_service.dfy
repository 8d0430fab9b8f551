/** `StudyMaterialService`: the material records, the upload record's
    construction, and the string helpers for extensions and public ids. The
    repository is an ordered list of records; the object store's answer and
    the generated key and id are parameters. */
module StudyMaterialService {
  import opened Wrappers
  import opened JavaString
  import opened Entities
  import Streams

  type Store = seq<StudyMaterial>

  /** What the upload handler reads of the multipart file. */
  datatype UploadedFile = UploadedFile(originalFilename: Option<string>, size: nat)

  datatype UploadError = EmptyFile | StorageFailed

  datatype PublicIdError = MalformedUrl

  /** `getFileExtension`: "" for a null name or a name without '.', and
      otherwise the text after the last '.', which has no '.' in it. */
  function GetFileExtension(filename: Option<string>): (r: string)
    ensures filename.None? ==> r == ""
    ensures filename.Some? && '.' !in filename.value ==> r == ""
    ensures filename.Some? && '.' in filename.value ==> EndsWith(filename.value, "." + r) && '.' !in r
  {
    match filename
    case None => ""
    case Some(name) =>
      var dot := LastIndexOfChar(name, '.');
      if dot < 0 then ""
      else
        var r := name[dot + 1..];
        assert name[|name| - |"." + r|..] == "." + r;
        r
  }

  /** The public URL under which the object store serves `key`. */
  function ObjectUrl(bucket: string, region: string, key: string): string {
    "https://" + bucket + ".s3." + region + ".amazonaws.com/" + key
  }

  /** `uploadMaterial`: an empty file fails before anything is stored; a
      failed put fails as well; otherwise one record is appended whose file
      name is the original name, whose type is its extension in the original
      case, and whose path is the object URL of `uuid + "." + extension`. */
  function UploadMaterial(store: Store, file: UploadedFile, title: string, description: string,
                          courseId: string, uploadedBy: string,
                          uuid: string, bucket: string, region: string, stored: bool,
                          newId: string): (r: Result<(Store, StudyMaterial), UploadError>)
    ensures file.size == 0 ==> r == Err(EmptyFile)
    ensures file.size > 0 && !stored ==> r == Err(StorageFailed)
    ensures r.Ok? ==> file.size > 0 && stored
    ensures r.Ok? ==>
      var (s, m) := r.value;
      var ext := GetFileExtension(file.originalFilename);
      && s == store + [m]
      && m.id == newId && m.title == title && m.description == description
      && m.fileName == file.originalFilename
      && m.fileType == Some(ext)
      && m.filePath == ObjectUrl(bucket, region, uuid + "." + ext)
      && m.courseId == courseId && m.uploadedBy == uploadedBy
  {
    if file.size == 0 then Err(EmptyFile)
    else
      var ext := GetFileExtension(file.originalFilename);
      var key := uuid + "." + ext;
      if !stored then Err(StorageFailed)
      else
        var m := StudyMaterial(newId, title, description, file.originalFilename, Some(ext),
                               ObjectUrl(bucket, region, key), courseId, uploadedBy);
        Ok((store + [m], m))
  }

  predicate OfCourse(courseId: string, m: StudyMaterial) {
    m.courseId == courseId
  }

  /** `getMaterialsByCourse`: the course's records in listing order. */
  function MaterialsByCourse(store: Store, courseId: string): (r: Store)
    ensures forall i :: 0 <= i < |r| ==> r[i] in store && r[i].courseId == courseId
    ensures forall i :: 0 <= i < |store| && store[i].courseId == courseId ==> store[i] in r
  {
    Streams.Filter(store, m => OfCourse(courseId, m))
  }

  /** The position of the first record with `id`, or -1. */
  function IndexOfId(store: Store, id: string): (r: int)
    ensures -1 <= r < |store|
    ensures 0 <= r ==> store[r].id == id
    ensures forall k :: 0 <= k < |store| && (r < 0 || k < r) ==> store[k].id != id
  {
    if |store| == 0 then -1
    else if store[0].id == id then 0
    else
      var t := IndexOfId(store[1..], id);
      if t < 0 then -1 else t + 1
  }

  /** `getMaterialById`. */
  function GetMaterialById(store: Store, id: string): (r: Option<StudyMaterial>)
    ensures r.None? <==> forall k :: 0 <= k < |store| ==> store[k].id != id
    ensures r.Some? ==> r.value in store && r.value.id == id
  {
    var k := IndexOfId(store, id);
    if k < 0 then None else Some(store[k])
  }

  /** `updateMaterialDetails`: a missing id changes nothing and yields null;
      otherwise the record keeps every field but the title and the
      description, and every other record is left as it was. */
  function UpdateMaterialDetails(store: Store, id: string, title: string, description: string): (r: (Store, Option<StudyMaterial>))
    ensures GetMaterialById(store, id).None? ==> r == (store, None)
    ensures GetMaterialById(store, id).Some? ==>
      var old_ := GetMaterialById(store, id).value;
      && r.1 == Some(old_.(title := title, description := description))
      && |r.0| == |store|
      && (forall k :: 0 <= k < |store| && store[k].id != id ==> r.0[k] == store[k])
      && GetMaterialById(r.0, id) == r.1
  {
    var k := IndexOfId(store, id);
    if k < 0 then (store, None)
    else
      var m := store[k].(title := title, description := description);
      var s := store[k := m];
      assert s[k].id == id;
      assert forall j :: 0 <= j < k ==> s[j] == store[j];
      FirstIdIsIndex(s, id, k);
      (s, Some(m))
  }

  /** `deleteMaterial`: its body is commented out, so the repository is
      returned as it was. */
  function DeleteMaterial(store: Store, id: string): Store {
    store
  }

  /** Every record with `id` survives a delete. */
  lemma DeleteKeepsMaterial(store: Store, id: string)
    ensures GetMaterialById(DeleteMaterial(store, id), id) == GetMaterialById(store, id)
  {
  }

  /** Each segment followed by "/", as the public-id builder inserts them. */
  function Slashed(parts: seq<string>): string {
    if |parts| == 0 then "" else parts[0] + "/" + Slashed(parts[1..])
  }

  /** The last position before `n` holding an "upload" segment, or -1. */
  function LastUploadBefore(parts: seq<string>, n: int): (r: int)
    requires 0 <= n <= |parts|
    ensures -1 <= r < n
    ensures 0 <= r ==> parts[r] == "upload"
    ensures forall k :: r < k < n ==> parts[k] != "upload"
  {
    if n == 0 then -1
    else if parts[n - 1] == "upload" then n - 1
    else LastUploadBefore(parts, n - 1)
  }

  /** The public id of a URL's '/'-separated segments, as a reference
      definition: the folders after the last "upload" segment, each followed
      by "/", then the last segment without its final extension; no segments,
      or a last segment without '.', give none. */
  function PublicIdOfSegments(parts: seq<string>): Option<string> {
    if |parts| == 0 then None
    else
      var last := parts[|parts| - 1];
      var dot := LastIndexOfChar(last, '.');
      if dot < 0 then None
      else
        var n := |parts| - 1;
        Some(Slashed(parts[LastUploadBefore(parts, n) + 1..n]) + last[..dot])
  }

  function PublicIdOf(url: string): Option<string> {
    PublicIdOfSegments(Split(url, '/'))
  }

  /** `extractPublicIdFromUrl`; a failing lookup or substring is the thrown
      RuntimeException. */
  method ExtractPublicIdFromUrl(fileUrl: string) returns (r: Result<string, PublicIdError>)
    ensures r.Err? <==> PublicIdOf(fileUrl).None?
    ensures r.Ok? ==> PublicIdOf(fileUrl) == Some(r.value)
  {
    r := PublicIdFromSegments(Split(fileUrl, '/'));
  }

  /** The body of `extractPublicIdFromUrl` after the split, scanning the
      segments backwards as the source does. */
  method PublicIdFromSegments(parts: seq<string>) returns (r: Result<string, PublicIdError>)
    ensures r.Err? <==> PublicIdOfSegments(parts).None?
    ensures r.Ok? ==> PublicIdOfSegments(parts) == Some(r.value)
  {
    if |parts| == 0 {
      return Err(MalformedUrl);
    }
    var filenameWithExt := parts[|parts| - 1];
    var dot := LastIndexOfChar(filenameWithExt, '.');
    if dot < 0 {
      return Err(MalformedUrl);
    }
    var folders := FolderPrefix(parts, |parts| - 1);
    return Ok(folders + filenameWithExt[..dot]);
  }

  /** The backward scan of `extractPublicIdFromUrl`: from the segment before
      the file name down to the last "upload" segment (exclusive), each
      segment is prepended with its "/". */
  method FolderPrefix(parts: seq<string>, n: int) returns (builder: string)
    requires 0 <= n <= |parts|
    ensures builder == Slashed(parts[LastUploadBefore(parts, n) + 1..n])
  {
    builder := "";
    var i := n - 1;
    while i >= 0
      invariant -1 <= i < n
      invariant builder == Slashed(parts[i + 1..n])
      invariant forall k :: i < k < n ==> parts[k] != "upload"
      decreases i + 1
    {
      if parts[i] == "upload" {
        break;
      }
      assert parts[i..n][1..] == parts[i + 1..n];
      builder := parts[i] + "/" + builder;
      i := i - 1;
    }
    LastUploadIsUnique(parts, n, i);
  }

  lemma LastUploadIsUnique(parts: seq<string>, n: int, i: int)
    requires 0 <= n <= |parts| && -1 <= i < n
    requires i >= 0 ==> parts[i] == "upload"
    requires forall k :: i < k < n ==> parts[k] != "upload"
    ensures i == LastUploadBefore(parts, n)
  {
  }

  lemma FirstIdIsIndex(store: Store, id: string, k: int)
    requires 0 <= k < |store| && store[k].id == id
    requires forall j :: 0 <= j < k ==> store[j].id != id
    ensures IndexOfId(store, id) == k
  {
  }
}
