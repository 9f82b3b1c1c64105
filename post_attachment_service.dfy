/**
 * Post attachments (PostAttachmentService): who owns a stored file, the limits an upload
 * batch must pass, how the image references of a markdown text are resolved to stored
 * images, and the tables that derive extensions and content types from names, URLs and
 * MIME types. Storage, downloads, Base64 decoding and UUIDs are values handed in by the
 * caller; the attachment repository is a sequence of rows in save order.
 */
module PostAttachments {
  import opened Wrappers
  import opened Text
  import opened Multipart

  /** `PostAttachment.ImageType`: the service only tells NORMAL apart from the markdown kinds. */
  datatype ImageType = Normal | Markdown(name: string)

  const MarkdownSelfIntroduction: ImageType := Markdown("MARKDOWN_SELF_INTRODUCTION")

  /** The `PostAttachmentErrorCode` constants the service throws. */
  datatype ErrorCode =
    | UnauthorizedAccess
    | FileUploadLimitExceeded
    | FileRequired
    | FileSizeExceeded
    | FileUploadError
    | FileNotFound
    | FileDeleteNoPermission

  /** A stored `PostAttachment` row. */
  datatype Attachment = Attachment(
    id: nat, ownerId: int, originalFilename: Option<string>, storeFilePath: string, fileSize: nat,
    imageType: ImageType, uniqueIdentifier: Option<string>)

  /** `FileResponse.FileInfoDto` */
  datatype FileInfo = FileInfo(
    attachmentId: nat, originalFilename: Option<string>, fileSize: nat, fileUrl: Option<string>,
    uniqueIdentifier: Option<string>)

  /** The path under which markdown images are served; their identifier follows it. */
  const MarkdownImagePath := "/api/files/markdown-images/"

  const FirebaseHost := "firebasestorage.googleapis.com"

  const OctetStream := "application/octet-stream"

  // ---------------------------------------------------------------------------------------
  // The repository

  /** Ids grow in save order and stay below the next id to hand out. */
  ghost predicate IdsAscendingBelow(repo: seq<Attachment>, bound: nat) {
    (forall i, j :: 0 <= i < j < |repo| ==> repo[i].id < repo[j].id) &&
    (forall i :: 0 <= i < |repo| ==> repo[i].id < bound)
  }

  /**
   * The same order stated row by row from the end: the last row's id is below the bound and
   * bounds the rest. The service keeps its repository in this form.
   */
  ghost predicate Ordered(repo: seq<Attachment>, bound: nat)
    decreases |repo|
  {
    |repo| == 0 || (repo[|repo| - 1].id < bound && Ordered(repo[..|repo| - 1], repo[|repo| - 1].id))
  }

  lemma {:induction false} OrderedMeans(repo: seq<Attachment>, bound: nat)
    requires Ordered(repo, bound)
    ensures IdsAscendingBelow(repo, bound)
    decreases |repo|
  {
    if |repo| > 0 {
      var n := |repo| - 1;
      OrderedMeans(repo[..n], repo[n].id);
      assert forall i :: 0 <= i < n ==> repo[..n][i] == repo[i];
    }
  }

  lemma {:induction false} OrderedFrom(repo: seq<Attachment>, bound: nat)
    requires IdsAscendingBelow(repo, bound)
    ensures Ordered(repo, bound)
    decreases |repo|
  {
    if |repo| > 0 {
      var n := |repo| - 1;
      assert forall i :: 0 <= i < n ==> repo[..n][i] == repo[i];
      OrderedFrom(repo[..n], repo[n].id);
    }
  }

  predicate NoDuplicates<T(==)>(s: seq<T>) {
    forall i, j :: 0 <= i < j < |s| ==> s[i] != s[j]
  }

  /** `findById` */
  function FindById(repo: seq<Attachment>, id: int): (r: Option<Attachment>)
    ensures r.Some? ==> r.value in repo && r.value.id == id
    ensures r.None? <==> forall k :: 0 <= k < |repo| ==> repo[k].id != id
  {
    if |repo| == 0 then None
    else if repo[0].id == id then Some(repo[0])
    else
      var r := FindById(repo[1..], id);
      assert forall k :: 1 <= k < |repo| ==> repo[k] == repo[1..][k - 1];
      r
  }

  /** `findByUniqueIdentifier`: the first row carrying the identifier. */
  function FindByUid(repo: seq<Attachment>, uid: string): (r: Option<Attachment>)
    ensures r.Some? ==> r.value in repo && r.value.uniqueIdentifier == Some(uid)
    ensures r.None? <==> forall k :: 0 <= k < |repo| ==> repo[k].uniqueIdentifier != Some(uid)
  {
    if |repo| == 0 then None
    else if repo[0].uniqueIdentifier == Some(uid) then Some(repo[0])
    else
      var r := FindByUid(repo[1..], uid);
      assert forall k :: 1 <= k < |repo| ==> repo[k] == repo[1..][k - 1];
      r
  }

  /** Rows saved later do not change what an identifier already found resolves to. */
  lemma {:induction false} FindByUidExtended(repo: seq<Attachment>, extra: seq<Attachment>, uid: string)
    requires FindByUid(repo, uid).Some?
    ensures FindByUid(repo + extra, uid) == FindByUid(repo, uid)
  {
    assert |repo| > 0;
    if repo[0].uniqueIdentifier != Some(uid) {
      assert (repo + extra)[1..] == repo[1..] + extra;
      FindByUidExtended(repo[1..], extra, uid);
    }
  }

  /** `countByMemberId` */
  function CountOf(repo: seq<Attachment>, memberId: int): nat
  {
    if |repo| == 0 then 0
    else (if repo[0].ownerId == memberId then 1 else 0) + CountOf(repo[1..], memberId)
  }

  /** The count is at most the number of rows, and zero exactly when the member owns none. */
  lemma {:induction false} CountOfBounds(repo: seq<Attachment>, memberId: int)
    ensures CountOf(repo, memberId) <= |repo|
    ensures CountOf(repo, memberId) == 0 <==> forall k :: 0 <= k < |repo| ==> repo[k].ownerId != memberId
  {
    if |repo| > 0 {
      CountOfBounds(repo[1..], memberId);
      assert forall k :: 1 <= k < |repo| ==> repo[k] == repo[1..][k - 1];
    }
  }

  /** `delete`: every row with the id goes, the others keep their order. */
  function RemoveId(repo: seq<Attachment>, id: int): (r: seq<Attachment>)
    ensures forall a :: a in r <==> a in repo && a.id != id
  {
    if |repo| == 0 then []
    else if repo[0].id == id then RemoveId(repo[1..], id)
    else [repo[0]] + RemoveId(repo[1..], id)
  }

  /** Deleting keeps the ids of the remaining rows ascending and below the bound. */
  lemma RemoveIdKeepsOrder(repo: seq<Attachment>, id: int, bound: nat)
    requires Ordered(repo, bound)
    ensures Ordered(RemoveId(repo, id), bound)
  {
    OrderedMeans(repo, bound);
    RemoveIdKeepsAscending(repo, id, bound);
    OrderedFrom(RemoveId(repo, id), bound);
  }

  lemma {:induction false} RemoveIdKeepsAscending(repo: seq<Attachment>, id: int, bound: nat)
    requires IdsAscendingBelow(repo, bound)
    ensures IdsAscendingBelow(RemoveId(repo, id), bound)
  {
    if |repo| > 0 {
      var tail := repo[1..];
      assert IdsAscendingBelow(tail, bound);
      RemoveIdKeepsAscending(tail, id, bound);
      var rest := RemoveId(tail, id);
      if repo[0].id != id {
        forall k | 0 <= k < |rest| ensures repo[0].id < rest[k].id {
          assert rest[k] in tail;
        }
        ConsAscending(repo[0], rest, bound);
      }
    }
  }

  /** A row below the bound and below every later id may go in front. */
  lemma ConsAscending(a: Attachment, rest: seq<Attachment>, bound: nat)
    requires IdsAscendingBelow(rest, bound) && a.id < bound
    requires forall k :: 0 <= k < |rest| ==> a.id < rest[k].id
    ensures IdsAscendingBelow([a] + rest, bound)
  {
    assert forall k :: 1 <= k <= |rest| ==> ([a] + rest)[k] == rest[k - 1];
  }

  // ---------------------------------------------------------------------------------------
  // Ownership

  /** isFileOwner: false for a missing id or file, else whether the file's member is the user. */
  function IsFileOwner(repo: seq<Attachment>, fileId: Option<int>, userId: Option<int>): (r: bool)
    ensures fileId.None? || userId.None? ==> !r
    ensures r ==> exists k :: 0 <= k < |repo| && repo[k].id == fileId.value && repo[k].ownerId == userId.value
  {
    if fileId.None? || userId.None? then false
    else
      match FindById(repo, fileId.value)
      case None => false
      case Some(a) => a.ownerId == userId.value
  }

  /** With ids unique, a user owns a file exactly when the row with that id is theirs. */
  lemma OwnerIffRowIsTheirs(repo: seq<Attachment>, bound: nat, fileId: int, userId: int)
    requires Ordered(repo, bound)
    ensures IsFileOwner(repo, Some(fileId), Some(userId)) <==>
      exists k :: 0 <= k < |repo| && repo[k].id == fileId && repo[k].ownerId == userId
  {
    OrderedMeans(repo, bound);
    var hit := FindById(repo, fileId);
    if k :| 0 <= k < |repo| && repo[k].id == fileId && repo[k].ownerId == userId {
      var m :| 0 <= m < |repo| && repo[m] == hit.value;
      assert m == k;
    }
  }

  /** isMarkdownImageOwner: whether the image with the identifier belongs to the user. */
  function IsMarkdownImageOwner(repo: seq<Attachment>, uid: string, userId: int): (r: bool)
    ensures r <==> FindByUid(repo, uid).Some? && FindByUid(repo, uid).value.ownerId == userId
    ensures r ==> exists k :: 0 <= k < |repo| && repo[k].uniqueIdentifier == Some(uid) && repo[k].ownerId == userId
  {
    match FindByUid(repo, uid)
    case None => false
    case Some(a) => a.ownerId == userId
  }

  /** The refusals of deleteFile, in their order. */
  function DeleteGuard(repo: seq<Attachment>, attachmentId: int, memberId: int): (r: Option<ErrorCode>)
    ensures r == Some(FileNotFound) <==> forall k :: 0 <= k < |repo| ==> repo[k].id != attachmentId
  {
    match FindById(repo, attachmentId)
    case None => Some(FileNotFound)
    case Some(a) => if a.ownerId != memberId then Some(FileDeleteNoPermission) else None
  }

  /** deleteFile lets through exactly the users isFileOwner accepts; anyone else is refused. */
  lemma DeleteAllowedIffOwner(repo: seq<Attachment>, attachmentId: int, memberId: int)
    ensures DeleteGuard(repo, attachmentId, memberId).None? <==> IsFileOwner(repo, Some(attachmentId), Some(memberId))
    ensures DeleteGuard(repo, attachmentId, memberId) == Some(FileDeleteNoPermission) <==>
      FindById(repo, attachmentId).Some? && !IsFileOwner(repo, Some(attachmentId), Some(memberId))
  {
  }

  /** Once a file is deleted nobody owns it any more. */
  lemma DeletedFileHasNoOwner(repo: seq<Attachment>, attachmentId: int, userId: Option<int>)
    ensures FindById(RemoveId(repo, attachmentId), attachmentId).None?
    ensures !IsFileOwner(RemoveId(repo, attachmentId), Some(attachmentId), userId)
  {
    var r := RemoveId(repo, attachmentId);
    forall k | 0 <= k < |r| ensures r[k].id != attachmentId {
      assert r[k] in r;
    }
  }

  // ---------------------------------------------------------------------------------------
  // Uploads

  /** The checks uploadFiles makes on one file, in order; a failing storage upload is FILE_UPLOAD_ERROR. */
  function FileCheck(f: MultipartFile, maxFileSize: nat, url: Option<string>): (r: Option<ErrorCode>)
    ensures r.None? <==> !f.IsEmpty() && f.size <= maxFileSize && url.Some?
  {
    if f.IsEmpty() then Some(FileRequired)
    else if f.size > maxFileSize then Some(FileSizeExceeded)
    else if url.None? then Some(FileUploadError)
    else None
  }

  /** The error of the first file that fails its checks, or None when all pass. */
  function FirstFailure(files: seq<MultipartFile>, urls: seq<Option<string>>, maxFileSize: nat): Option<ErrorCode>
    requires |urls| == |files|
  {
    if |files| == 0 then None
    else
      var n := |files| - 1;
      var p := FirstFailure(files[..n], urls[..n], maxFileSize);
      if p.Some? then p else FileCheck(files[n], maxFileSize, urls[n])
  }

  /** A batch has no failure exactly when every file passes its checks. */
  lemma {:induction false} FirstFailureNone(files: seq<MultipartFile>, urls: seq<Option<string>>, maxFileSize: nat)
    requires |urls| == |files|
    ensures FirstFailure(files, urls, maxFileSize).None? <==>
      forall k :: 0 <= k < |files| ==> FileCheck(files[k], maxFileSize, urls[k]).None?
  {
    if |files| > 0 {
      var n := |files| - 1;
      FirstFailureNone(files[..n], urls[..n], maxFileSize);
      assert forall k :: 0 <= k < n ==> files[..n][k] == files[k] && urls[..n][k] == urls[k];
    }
  }

  /** The file at `i` is the first to fail, so its error is the batch's. */
  lemma {:induction false} FirstFailureAt(files: seq<MultipartFile>, urls: seq<Option<string>>, maxFileSize: nat, i: nat)
    requires |urls| == |files| && i < |files|
    requires forall k :: 0 <= k < i ==> FileCheck(files[k], maxFileSize, urls[k]).None?
    requires FileCheck(files[i], maxFileSize, urls[i]).Some?
    ensures FirstFailure(files, urls, maxFileSize) == FileCheck(files[i], maxFileSize, urls[i])
  {
    var n := |files| - 1;
    assert forall k :: 0 <= k < n ==> files[..n][k] == files[k] && urls[..n][k] == urls[k];
    if i == n {
      FirstFailureNone(files[..n], urls[..n], maxFileSize);
    } else {
      FirstFailureAt(files[..n], urls[..n], maxFileSize, i);
    }
  }

  /** The row uploadFiles saves for one file; only markdown kinds get an identifier. */
  function UploadedRow(id: nat, memberId: int, f: MultipartFile, imageType: ImageType, url: string, uid: string): Attachment {
    Attachment(id, memberId, f.originalFilename, url, f.size, imageType, if imageType != Normal then Some(uid) else None)
  }

  /** Raising the bound keeps a repository ordered. */
  lemma RaiseBound(repo: seq<Attachment>, bound: nat, bound': nat)
    requires Ordered(repo, bound) && bound <= bound'
    ensures Ordered(repo, bound')
  {
  }

  /** A row whose id is the bound goes last, and the next bound is one above it. */
  lemma OrderedAppend(repo: seq<Attachment>, row: Attachment, bound: nat)
    requires Ordered(repo, bound) && row.id == bound
    ensures Ordered(repo + [row], bound + 1)
  {
    assert (repo + [row])[..|repo|] == repo;
  }

  /** The rows of one upload batch, with consecutive ids from `firstId`. */
  function UploadedRows(files: seq<MultipartFile>, urls: seq<Option<string>>, uids: seq<string>,
                        imageType: ImageType, memberId: int, firstId: nat): (rows: seq<Attachment>)
    requires |urls| == |files| && |uids| == |files|
    ensures |rows| == |files|
  {
    if |files| == 0 then []
    else
      var n := |files| - 1;
      UploadedRows(files[..n], urls[..n], uids[..n], imageType, memberId, firstId)
        + [UploadedRow(firstId + n, memberId, files[n], imageType, urls[n].GetOr(""), uids[n])]
  }

  /** Row k of a batch is the k-th file's row, with id `firstId + k`. */
  lemma {:induction false} UploadedRowAt(files: seq<MultipartFile>, urls: seq<Option<string>>, uids: seq<string>,
                                         imageType: ImageType, memberId: int, firstId: nat, k: nat)
    requires |urls| == |files| && |uids| == |files| && k < |files|
    ensures UploadedRows(files, urls, uids, imageType, memberId, firstId)[k]
      == UploadedRow(firstId + k, memberId, files[k], imageType, urls[k].GetOr(""), uids[k])
  {
    var n := |files| - 1;
    if k < n {
      UploadedRowAt(files[..n], urls[..n], uids[..n], imageType, memberId, firstId, k);
    }
  }

  /** The batch grows one row at a time, file by file. */
  lemma UploadedRowsStep(files: seq<MultipartFile>, urls: seq<Option<string>>, uids: seq<string>,
                         imageType: ImageType, memberId: int, firstId: nat, i: nat)
    requires |urls| == |files| && |uids| == |files| && i < |files|
    ensures var rows := UploadedRows(files, urls, uids, imageType, memberId, firstId);
      rows[..i + 1] == rows[..i] + [UploadedRow(firstId + i, memberId, files[i], imageType, urls[i].GetOr(""), uids[i])]
  {
    var rows := UploadedRows(files, urls, uids, imageType, memberId, firstId);
    UploadedRowAt(files, urls, uids, imageType, memberId, firstId, i);
    assert rows[..i + 1] == rows[..i] + [rows[i]];
  }

  /** The response entry for an uploaded file: a markdown image also gets its URL and identifier. */
  function UploadedInfo(a: Attachment): FileInfo {
    if a.imageType != Normal && a.uniqueIdentifier.Some? then
      FileInfo(a.id, a.originalFilename, a.fileSize, Some(MarkdownImagePath + a.uniqueIdentifier.value), a.uniqueIdentifier)
    else FileInfo(a.id, a.originalFilename, a.fileSize, None, None)
  }

  /** Java's string concatenation writes a null reference as "null". */
  function TextOrNull(s: Option<string>): string {
    if s.Some? then s.value else "null"
  }

  /** The response entry for an image found in or saved from a markdown text. */
  function MarkdownInfo(a: Attachment): FileInfo {
    FileInfo(a.id, a.originalFilename, a.fileSize, Some(MarkdownImagePath + TextOrNull(a.uniqueIdentifier)), a.uniqueIdentifier)
  }

  /** The references uploadFiles processes: those of a present, non-empty markdown text. */
  function MarkdownRefs(markdownText: Option<string>, refs: seq<ImageRef>): (r: seq<ImageRef>)
    ensures r == [] || r == refs
    ensures r == refs <==> (markdownText.Some? && markdownText.value != "") || refs == []
  {
    if markdownText.Some? && markdownText.value != "" then refs else []
  }

  /** The response entries of an upload batch, one per row. */
  function UploadedInfos(rows: seq<Attachment>): (r: seq<FileInfo>)
    ensures |r| == |rows|
  {
    if |rows| == 0 then [] else UploadedInfos(rows[..|rows| - 1]) + [UploadedInfo(rows[|rows| - 1])]
  }

  /** The response entries of the images a markdown text yielded, one per image. */
  function MarkdownInfos(found: seq<Attachment>): (r: seq<FileInfo>)
    ensures |r| == |found|
  {
    if |found| == 0 then [] else MarkdownInfos(found[..|found| - 1]) + [MarkdownInfo(found[|found| - 1])]
  }

  /** The response lists hold one entry per row, in the rows' order. */
  lemma {:induction false} InfosInOrder(rows: seq<Attachment>)
    ensures forall k :: 0 <= k < |rows| ==> UploadedInfos(rows)[k] == UploadedInfo(rows[k])
    ensures forall k :: 0 <= k < |rows| ==> MarkdownInfos(rows)[k] == MarkdownInfo(rows[k])
  {
    if |rows| > 0 {
      InfosInOrder(rows[..|rows| - 1]);
    }
  }

  /** A markdown reference to the served path names the stored image by the text after the last '/'. */
  predicate IsInternalRef(url: string) {
    Contains(url, MarkdownImagePath)
  }

  /**
   * The URL an upload hands out for a markdown image is an internal reference whose
   * identifier is the image's own, whichever kind of upload produced it.
   */
  lemma IssuedUrlNamesImage(a: Attachment)
    requires a.uniqueIdentifier.Some? && '/' !in a.uniqueIdentifier.value
    ensures a.imageType != Normal ==> UploadedInfo(a).fileUrl == MarkdownInfo(a).fileUrl
    ensures UploadedInfo(a).fileUrl.Some? <==> a.imageType != Normal
    ensures IsInternalRef(MarkdownInfo(a).fileUrl.value)
    ensures AfterLast(MarkdownInfo(a).fileUrl.value, '/') == a.uniqueIdentifier.value
  {
    var uid := a.uniqueIdentifier.value;
    var n := |MarkdownImagePath| - 1;
    assert MarkdownImagePath + uid == MarkdownImagePath[..n] + ['/'] + uid;
    AfterLastAfterSeparator(MarkdownImagePath[..n], '/', uid);
    PrefixContained(MarkdownImagePath + uid, MarkdownImagePath);
  }

  // ---------------------------------------------------------------------------------------
  // Markdown image references

  /** One `![alt](url)` match of the markdown pattern. */
  datatype ImageRef = ImageRef(altText: string, url: string)

  /** What storage reports for an image saved from a reference; None when saving threw and the reference was skipped. */
  datatype StoredImage = StoredImage(storeFilePath: string, fileSize: nat, uniqueIdentifier: string)

  /** The result list, the repository and the next id while the references are processed. */
  datatype Processing = Processing(found: seq<Attachment>, repo: seq<Attachment>, nextId: nat)

  /**
   * The extension of an image saved from a reference that is not internal: a `data:image/`
   * URI takes it from its media type (and is skipped when its header is malformed), an
   * http(s) URL from its text; anything else is not saved.
   */
  function NewImageExtension(url: string): (r: Option<string>)
    ensures r.Some? ==> r.value in {".png", ".gif", ".svg", ".jpg", ".webp"}
  {
    if StartsWith(url, "data:image/") then
      match DataUriParts(url)
      case Ok(parts) => Some(MimeExtension(parts.0))
      case Err(_) => None
    else if StartsWith(url, "http://") || StartsWith(url, "https://") then Some(DetermineImageExtension(url))
    else None
  }

  /** What one match asks for: an internal reference names a stored image, anything else may be a new image. */
  datatype RefKind = Internal(uid: string) | NewImage(filename: string) | Skipped

  /**
   * How processMarkdownImages reads one match: an internal reference by the identifier after
   * its last '/'; otherwise an image saved under the alt text plus the extension, when the
   * URL yields one.
   */
  function Classify(ref: ImageRef): (k: RefKind)
    ensures k.Internal? <==> IsInternalRef(ref.url)
    ensures k.NewImage? ==> exists ext :: ext in {".png", ".gif", ".svg", ".jpg", ".webp"} && k.filename == ref.altText + ext
  {
    if IsInternalRef(ref.url) then Internal(AfterLast(ref.url, '/'))
    else
      match NewImageExtension(ref.url)
      case Some(ext) => NewImage(ref.altText + ext)
      case None => Skipped
  }

  /** The matches of a text, each read on its own as Classify reads it. */
  function Classified(refs: seq<ImageRef>): (ks: seq<RefKind>)
    ensures |ks| == |refs|
  {
    seq(|refs|, k requires 0 <= k < |refs| => Classify(refs[k]))
  }

  /** The body of the `while (matcher.find())` loop of processMarkdownImages, for one match. */
  function ProcessRef(p: Processing, kind: RefKind, stored: Option<StoredImage>, memberId: int, imageType: ImageType): Processing
  {
    match kind
    case Internal(uid) =>
      var hit := FindByUid(p.repo, uid);
      if hit.Some? && hit.value !in p.found then p.(found := p.found + [hit.value]) else p
    case NewImage(filename) =>
      if stored.Some? then
        var a := Attachment(p.nextId, memberId, Some(filename), stored.value.storeFilePath,
                            stored.value.fileSize, imageType, Some(stored.value.uniqueIdentifier));
        Processing(p.found + [a], p.repo + [a], p.nextId + 1)
      else p
    case Skipped => p
  }

  /**
   * One match adds at most one row, with the next id, and lists it; or lists one stored
   * image not listed before; or changes nothing.
   */
  lemma ProcessRefGrows(p: Processing, kind: RefKind, stored: Option<StoredImage>, memberId: int, imageType: ImageType)
    ensures var q := ProcessRef(p, kind, stored, memberId, imageType);
      p.found <= q.found && p.repo <= q.repo &&
      q.nextId == p.nextId + (|q.repo| - |p.repo|) && |q.repo| <= |p.repo| + 1 &&
      (|q.repo| > |p.repo| ==> q.repo[|p.repo|].id == p.nextId && q.found == p.found + [q.repo[|p.repo|]]) &&
      (|q.repo| == |p.repo| && q.found != p.found ==>
        |q.found| == |p.found| + 1 && q.found[|p.found|] in p.repo && q.found[|p.found|] !in p.found)
  {
  }

  /**
   * processMarkdownImages over the matches in order: every listed image is stored, and the
   * repository only grows; ProcessRefsKeepsOrder adds that the new rows have fresh
   * ascending ids and that the list holds each image at most once.
   */
  function ProcessRefs(repo: seq<Attachment>, kinds: seq<RefKind>, stored: seq<Option<StoredImage>>,
                       nextId: nat, memberId: int, imageType: ImageType): (p: Processing)
    requires |stored| == |kinds|
  {
    if |kinds| == 0 then Processing([], repo, nextId)
    else
      var n := |kinds| - 1;
      var p := ProcessRefs(repo, kinds[..n], stored[..n], nextId, memberId, imageType);
      ProcessRef(p, kinds[n], stored[n], memberId, imageType)
  }
  /**
   * The markdown half of an upload, from the repository and next id the file loop left:
   * the references of a present, non-empty text, processed in order.
   */
  function MarkdownPass(repo: seq<Attachment>, nextId: nat, markdownText: Option<string>, refs: seq<ImageRef>,
                        stored: seq<Option<StoredImage>>, memberId: int, imageType: ImageType): Processing
    requires |stored| == |refs|
  {
    var md := MarkdownRefs(markdownText, refs);
    ProcessRefs(repo, Classified(md), stored[..|md|], nextId, memberId, imageType)
  }

  /** What the file loop of uploadFiles yields: the rows it saves, or the first file's failure. */
  function StoredBatch(files: seq<MultipartFile>, urls: seq<Option<string>>, uids: seq<string>, imageType: ImageType,
                       memberId: int, firstId: nat, maxFileSize: nat): Result<seq<Attachment>, ErrorCode>
    requires |urls| == |files| && |uids| == |files|
  {
    match FirstFailure(files, urls, maxFileSize)
    case Some(e) => Err(e)
    case None => Ok(UploadedRows(files, urls, uids, imageType, memberId, firstId))
  }

  /** What a successful upload leaves: the repository, the next id and the response list. */
  datatype Outcome = Outcome(repo: seq<Attachment>, nextId: nat, infos: seq<FileInfo>)

  /** uploadFiles once every file has passed: the files' rows, then the markdown pass after them. */
  function UploadOutcome(repo: seq<Attachment>, nextId: nat, files: seq<MultipartFile>, urls: seq<Option<string>>,
                         uids: seq<string>, imageType: ImageType, memberId: int, markdownText: Option<string>,
                         refs: seq<ImageRef>, stored: seq<Option<StoredImage>>): Outcome
    requires |urls| == |files| && |uids| == |files| && |stored| == |refs|
  {
    var rows := UploadedRows(files, urls, uids, imageType, memberId, nextId);
    var p := MarkdownPass(repo + rows, nextId + |files|, markdownText, refs, stored, memberId, imageType);
    Outcome(p.repo, p.nextId, UploadedInfos(rows) + MarkdownInfos(p.found))
  }


  /** An upload whose file loop and markdown pass left these results has this outcome. */
  lemma UploadOutcomeOf(repo: seq<Attachment>, nextId: nat, files: seq<MultipartFile>, urls: seq<Option<string>>,
                        uids: seq<string>, imageType: ImageType, memberId: int, markdownText: Option<string>,
                        refs: seq<ImageRef>, stored: seq<Option<StoredImage>>,
                        rows: seq<Attachment>, base: seq<Attachment>, infos: seq<FileInfo>, p: Processing)
    requires |urls| == |files| && |uids| == |files| && |stored| == |refs|
    requires rows == UploadedRows(files, urls, uids, imageType, memberId, nextId) && infos == UploadedInfos(rows)
    requires base == repo + rows
    requires p == MarkdownPass(base, nextId + |files|, markdownText, refs, stored, memberId, imageType)
    ensures Outcome(p.repo, p.nextId, infos + MarkdownInfos(p.found)) ==
      UploadOutcome(repo, nextId, files, urls, uids, imageType, memberId, markdownText, refs, stored)
  {
  }

  /** A batch's rows go after the repository in id order, and the id after them bounds them all. */
  lemma {:induction false} UploadedRowsOrdered(repo: seq<Attachment>, files: seq<MultipartFile>, urls: seq<Option<string>>,
                                               uids: seq<string>, imageType: ImageType, memberId: int, nextId: nat)
    requires |urls| == |files| && |uids| == |files| && Ordered(repo, nextId)
    ensures Ordered(repo + UploadedRows(files, urls, uids, imageType, memberId, nextId), nextId + |files|)
  {
    if |files| == 0 {
      assert repo + [] == repo;
    } else {
      var n := |files| - 1;
      var earlier := UploadedRows(files[..n], urls[..n], uids[..n], imageType, memberId, nextId);
      var row := UploadedRow(nextId + n, memberId, files[n], imageType, urls[n].GetOr(""), uids[n]);
      UploadedRowsOrdered(repo, files[..n], urls[..n], uids[..n], imageType, memberId, nextId);
      OrderedAppend(repo + earlier, row, nextId + n);
      assert repo + (earlier + [row]) == (repo + earlier) + [row];
    }
  }

  /**
   * uploadFiles only appends: first the files' rows, then the rows of the markdown pass, one
   * id each, with the ids still ascending below the next id; the response lists the files first.
   */
  lemma UploadOutcomeShape(repo: seq<Attachment>, nextId: nat, files: seq<MultipartFile>, urls: seq<Option<string>>,
                           uids: seq<string>, imageType: ImageType, memberId: int, markdownText: Option<string>,
                           refs: seq<ImageRef>, stored: seq<Option<StoredImage>>)
    requires |urls| == |files| && |uids| == |files| && |stored| == |refs| && Ordered(repo, nextId)
    ensures var o := UploadOutcome(repo, nextId, files, urls, uids, imageType, memberId, markdownText, refs, stored);
      var rows := UploadedRows(files, urls, uids, imageType, memberId, nextId);
      repo + rows <= o.repo && o.nextId == nextId + (|o.repo| - |repo|) && Ordered(o.repo, o.nextId) &&
      |files| <= |o.infos| && o.infos[..|files|] == UploadedInfos(rows)
  {
    var rows := UploadedRows(files, urls, uids, imageType, memberId, nextId);
    var infos := UploadedInfos(rows);
    var p := MarkdownPass(repo + rows, nextId + |files|, markdownText, refs, stored, memberId, imageType);
    UploadedRowsOrdered(repo, files, urls, uids, imageType, memberId, nextId);
    MarkdownPassGrows(repo + rows, nextId + |files|, markdownText, refs, stored, memberId, imageType, p);
    UploadOutcomeOf(repo, nextId, files, urls, uids, imageType, memberId, markdownText, refs, stored, rows, repo + rows, infos, p);
    OutcomeOfPass(repo + rows, nextId + |files|, infos, p);
  }

  /** The outcome of a pass that only appended keeps its order, and lists the given entries first. */
  lemma OutcomeOfPass(base: seq<Attachment>, baseId: nat, infos: seq<FileInfo>, p: Processing)
    requires base <= p.repo && p.nextId == baseId + (|p.repo| - |base|) && Ordered(p.repo, p.nextId)
    ensures var o := Outcome(p.repo, p.nextId, infos + MarkdownInfos(p.found));
      base <= o.repo && o.nextId == baseId + (|o.repo| - |base|) && Ordered(o.repo, o.nextId) &&
      |infos| <= |o.infos| && o.infos[..|infos|] == infos
  {
    assert (infos + MarkdownInfos(p.found))[..|infos|] == infos;
  }

  /** The markdown pass only appends, one id per new row, and keeps the ids ascending below the next id. */
  lemma MarkdownPassGrows(repo: seq<Attachment>, nextId: nat, markdownText: Option<string>, refs: seq<ImageRef>,
                          stored: seq<Option<StoredImage>>, memberId: int, imageType: ImageType, p: Processing)
    requires |stored| == |refs| && Ordered(repo, nextId)
    requires p == MarkdownPass(repo, nextId, markdownText, refs, stored, memberId, imageType)
    ensures repo <= p.repo && p.nextId == nextId + (|p.repo| - |repo|) && Ordered(p.repo, p.nextId)
  {
    var md := MarkdownRefs(markdownText, refs);
    ProcessRefsGrows(repo, Classified(md), stored[..|md|], nextId, memberId, imageType);
    ProcessRefsKeepsOrder(repo, Classified(md), stored[..|md|], nextId, memberId, imageType);
  }

  /** The markdown pass depends on the value of its first id, not on how that value was written. */
  lemma SamePass(repo: seq<Attachment>, nextId: nat, nextId': nat, markdownText: Option<string>,
                 refs: seq<ImageRef>, stored: seq<Option<StoredImage>>, memberId: int, imageType: ImageType)
    requires |stored| == |refs| && nextId == nextId'
    ensures MarkdownPass(repo, nextId, markdownText, refs, stored, memberId, imageType)
      == MarkdownPass(repo, nextId', markdownText, refs, stored, memberId, imageType)
  {
  }

  /** Processing one more match extends the pass over the earlier ones by one step. */
  lemma ProcessRefsStep(repo: seq<Attachment>, kinds: seq<RefKind>, stored: seq<Option<StoredImage>>,
                        nextId: nat, memberId: int, imageType: ImageType, i: nat)
    requires |stored| == |kinds| && i < |kinds|
    ensures ProcessRefs(repo, kinds[..i + 1], stored[..i + 1], nextId, memberId, imageType)
      == ProcessRef(ProcessRefs(repo, kinds[..i], stored[..i], nextId, memberId, imageType), kinds[i], stored[i], memberId, imageType)
  {
    assert kinds[..i + 1][..i] == kinds[..i] && stored[..i + 1][..i] == stored[..i];
  }

  /** Processing only appends to the repository, one id per new row, and lists only stored images. */
  lemma {:induction false} ProcessRefsGrows(repo: seq<Attachment>, kinds: seq<RefKind>, stored: seq<Option<StoredImage>>,
                                            nextId: nat, memberId: int, imageType: ImageType)
    requires |stored| == |kinds|
    ensures var p := ProcessRefs(repo, kinds, stored, nextId, memberId, imageType);
      repo <= p.repo && p.nextId == nextId + (|p.repo| - |repo|) && forall a :: a in p.found ==> a in p.repo
  {
    if |kinds| > 0 {
      var n := |kinds| - 1;
      var p := ProcessRefs(repo, kinds[..n], stored[..n], nextId, memberId, imageType);
      ProcessRefsGrows(repo, kinds[..n], stored[..n], nextId, memberId, imageType);
      ProcessRefGrows(p, kinds[n], stored[n], memberId, imageType);
    }
  }

  /** Processing keeps the ids ascending below the next id and the list free of repeats. */
  lemma {:induction false} ProcessRefsKeepsOrder(repo: seq<Attachment>, kinds: seq<RefKind>, stored: seq<Option<StoredImage>>,
                                                 nextId: nat, memberId: int, imageType: ImageType)
    requires |stored| == |kinds| && Ordered(repo, nextId)
    ensures var p := ProcessRefs(repo, kinds, stored, nextId, memberId, imageType);
      Ordered(p.repo, p.nextId) && NoDuplicates(p.found)
  {
    if |kinds| > 0 {
      var n := |kinds| - 1;
      var earlier, earlierStored, last, lastStored := kinds[..n], stored[..n], kinds[n], stored[n];
      var p := ProcessRefs(repo, earlier, earlierStored, nextId, memberId, imageType);
      ProcessRefsKeepsOrder(repo, earlier, earlierStored, nextId, memberId, imageType);
      ProcessRefsGrows(repo, earlier, earlierStored, nextId, memberId, imageType);
      OrderedMeans(p.repo, p.nextId);
      ProcessRefKeepsOrder(p, last, lastStored, memberId, imageType);
      var q := ProcessRef(p, last, lastStored, memberId, imageType);
      OrderedFrom(q.repo, q.nextId);
    }
  }

  /** One step keeps the ids ascending and the list free of repeats. */
  lemma ProcessRefKeepsOrder(p: Processing, kind: RefKind, stored: Option<StoredImage>, memberId: int, imageType: ImageType)
    requires IdsAscendingBelow(p.repo, p.nextId) && NoDuplicates(p.found)
    requires forall a :: a in p.found ==> a in p.repo
    ensures var q := ProcessRef(p, kind, stored, memberId, imageType);
      IdsAscendingBelow(q.repo, q.nextId) && NoDuplicates(q.found)
  {
    var q := ProcessRef(p, kind, stored, memberId, imageType);
    ProcessRefGrows(p, kind, stored, memberId, imageType);
    if |q.repo| > |p.repo| {
      var a := q.repo[|p.repo|];
      assert q.repo == p.repo + [a] && a.id == p.nextId;
      forall x | x in p.found ensures x.id < p.nextId {
        var m :| 0 <= m < |p.repo| && p.repo[m] == x;
      }
    }
  }

  /** Every internal match whose identifier is stored yields that image in the result list. */
  lemma {:induction false} InternalKindIsListed(repo: seq<Attachment>, kinds: seq<RefKind>, stored: seq<Option<StoredImage>>,
                                                nextId: nat, memberId: int, imageType: ImageType, k: nat)
    requires |stored| == |kinds| && k < |kinds|
    requires kinds[k].Internal? && FindByUid(repo, kinds[k].uid).Some?
    ensures FindByUid(repo, kinds[k].uid).value in ProcessRefs(repo, kinds, stored, nextId, memberId, imageType).found
  {
    var n := |kinds| - 1;
    var p := ProcessRefs(repo, kinds[..n], stored[..n], nextId, memberId, imageType);
    if k == n {
      ProcessRefsGrows(repo, kinds[..n], stored[..n], nextId, memberId, imageType);
      InternalRefListed(repo, p, kinds[n].uid, stored[n], memberId, imageType);
    } else {
      ProcessRefGrows(p, kinds[n], stored[n], memberId, imageType);
      assert kinds[..n][k] == kinds[k];
      InternalKindIsListed(repo, kinds[..n], stored[..n], nextId, memberId, imageType, k);
    }
  }

  /** A match naming a row already in the repository the pass started from lists that row. */
  lemma InternalRefListed(repo: seq<Attachment>, p: Processing, uid: string, stored: Option<StoredImage>,
                          memberId: int, imageType: ImageType)
    requires repo <= p.repo && FindByUid(repo, uid).Some?
    ensures FindByUid(repo, uid).value in ProcessRef(p, Internal(uid), stored, memberId, imageType).found
  {
    var extra := p.repo[|repo|..];
    assert repo + extra == p.repo;
    FindByUidExtended(repo, extra, uid);
  }

  /** Every internal reference in the text whose identifier is stored yields that image in the result list. */
  lemma InternalRefIsListed(repo: seq<Attachment>, refs: seq<ImageRef>, stored: seq<Option<StoredImage>>,
                            nextId: nat, memberId: int, imageType: ImageType, k: nat)
    requires |stored| == |refs| && k < |refs|
    requires IsInternalRef(refs[k].url) && FindByUid(repo, AfterLast(refs[k].url, '/')).Some?
    ensures FindByUid(repo, AfterLast(refs[k].url, '/')).value in ProcessRefs(repo, Classified(refs), stored, nextId, memberId, imageType).found
  {
    InternalKindIsListed(repo, Classified(refs), stored, nextId, memberId, imageType, k);
  }

  /** A markdown text that refers to an uploaded image by its issued URL lists exactly that image. */
  lemma IssuedUrlResolves(repo: seq<Attachment>, a: Attachment, altText: string, stored: Option<StoredImage>, memberId: int, imageType: ImageType, nextId: nat)
    requires a.uniqueIdentifier.Some? && '/' !in a.uniqueIdentifier.value
    requires FindByUid(repo, a.uniqueIdentifier.value) == Some(a)
    ensures ProcessRefs(repo, Classified([ImageRef(altText, MarkdownInfo(a).fileUrl.value)]), [stored], nextId, memberId, imageType)
      == Processing([a], repo, nextId)
  {
    var ref := ImageRef(altText, MarkdownInfo(a).fileUrl.value);
    IssuedUrlNamesImage(a);
    assert Classified([ref]) == [Classify(ref)];
    OneInternalRef(repo, a, stored, memberId, imageType, nextId);
  }

  /** A text holding a single match that names a stored row lists that row and adds nothing. */
  lemma OneInternalRef(repo: seq<Attachment>, a: Attachment, stored: Option<StoredImage>, memberId: int, imageType: ImageType, nextId: nat)
    requires a.uniqueIdentifier.Some? && FindByUid(repo, a.uniqueIdentifier.value) == Some(a)
    ensures ProcessRefs(repo, [Internal(a.uniqueIdentifier.value)], [stored], nextId, memberId, imageType)
      == Processing([a], repo, nextId)
  {
    assert [Internal(a.uniqueIdentifier.value)][..0] == [] && [stored][..0] == [];
  }

  // ---------------------------------------------------------------------------------------
  // Data URIs, extensions and content types

  /**
   * The header split of saveBase64Image on a `data:` URI (section 3 of RFC 2397): the text
   * is split at ','; the payload is the second field, or the first when there is only one;
   * the media type runs from "image/" to ";base64" when a second field exists and the first
   * holds "image/", and is "image/jpeg" otherwise. An index that `substring` rejects is
   * reported as FILE_UPLOAD_ERROR.
   */
  function DataUriParts(uri: string): (r: Result<(string, string), ErrorCode>)
    ensures r.Err? ==> r.error == FileUploadError
    ensures r.Ok? ==> StartsWith(r.value.0, "image/")
  {
    var parts := JavaSplit(uri, ',');
    if |parts| == 0 then Err(FileUploadError)
    else if |parts| > 1 && Contains(parts[0], "image/") then
      match MediaType(parts[0])
      case Ok(mime) => Ok((mime, parts[1]))
      case Err(e) => Err(e)
    else Ok(("image/jpeg", if |parts| > 1 then parts[1] else parts[0]))
  }

  /** `header.substring(header.indexOf("image/"), header.indexOf(";base64"))` on a header holding "image/". */
  function MediaType(header: string): (r: Result<string, ErrorCode>)
    requires Contains(header, "image/")
    ensures r.Err? ==> r.error == FileUploadError
    ensures r.Ok? ==> StartsWith(r.value, "image/")
  {
    var b := IndexOf(header, "image/");
    var e := IndexOf(header, ";base64");
    if b <= e then
      assert e >= b + 6 by {
        assert header[b..b + 6] == "image/";
        forall k | b <= k < b + 6 ensures header[k] != ';' {
          assert header[k] == "image/"[k - b];
        }
        assert OccursAt(header, ";base64", e);
        assert header[e] == header[e..e + 7][0] == ';';
      }
      assert header[b..e][..6] == header[b..b + 6];
      Ok(header[b..e])
    else Err(FileUploadError)
  }

  /** "image/" first occurs right after the scheme of a data URI whose media type is an image type. */
  lemma ImageTypeAfterScheme(header: string, mime: string)
    requires header == "data:" + mime && StartsWith(mime, "image/")
    ensures IndexOf(header, "image/") == 5
  {
    assert OccursAt(header, "image/", 5) by {
      assert header[5..11] == mime[..6];
    }
    forall j | 0 <= j < 5 ensures !OccursAt(header, "image/", j) {
      assert header[j] == "data:"[j];
      NoOccurrenceAt(header, "image/", j);
    }
    FirstOccurrence(header, "image/", 5);
  }

  /** ";base64" first occurs right after a media type that holds no ';'. */
  lemma Base64MarkAfterType(header: string, mime: string)
    requires header == "data:" + mime + ";base64" && ';' !in mime
    ensures IndexOf(header, ";base64") == 5 + |mime|
  {
    var e := 5 + |mime|;
    assert OccursAt(header, ";base64", e) by {
      assert header[e..] == ";base64";
    }
    forall j | 0 <= j < e ensures !OccursAt(header, ";base64", j) {
      if j < 5 {
        assert header[j] == "data:"[j];
      } else {
        assert header[j] == mime[j - 5];
      }
      NoOccurrenceAt(header, ";base64", j);
    }
    FirstOccurrence(header, ";base64", e);
  }

  /** The header split recovers the media type and the payload a data URI was written from. */
  lemma DataUriRoundTrip(mime: string, payload: string)
    requires StartsWith(mime, "image/") && ';' !in mime && ',' !in mime
    requires payload != "" && ',' !in payload
    ensures DataUriParts("data:" + mime + ";base64," + payload) == Ok((mime, payload))
  {
    var header := "data:" + mime + ";base64";
    var uri := "data:" + mime + ";base64," + payload;
    assert ',' !in header by {
      forall i | 0 <= i < |header| ensures header[i] != ',' {
        if 5 <= i < 5 + |mime| { assert header[i] == mime[i - 5]; }
      }
    }
    assert uri == Join([header, payload], ',');
    JavaSplitJoin([header, payload], ',');
    ImageTypeAfterScheme(header, mime + ";base64");
    Base64MarkAfterType(header, mime);
    assert header[5..5 + |mime|] == mime;
  }

  /** The MIME-type table of saveBase64Image and uploadPastedImage. */
  function MimeExtension(mime: string): (ext: string)
    ensures ext in {".png", ".gif", ".svg", ".jpg"}
    ensures ext == ".jpg" <==> mime !in {"image/png", "image/gif", "image/svg+xml"}
  {
    if mime == "image/png" then ".png"
    else if mime == "image/gif" then ".gif"
    else if mime == "image/svg+xml" then ".svg"
    else ".jpg"
  }

  /** determineImageExtension: the first of ".gif", ".png", ".jpg"/".jpeg", ".webp" the lower-cased URL contains, else ".jpg". */
  function DetermineImageExtension(url: string): (ext: string)
    ensures ext in {".gif", ".png", ".jpg", ".webp"}
    ensures ext == ".gif" <==> Contains(ToLower(url), ".gif")
    ensures ext == ".png" <==> !Contains(ToLower(url), ".gif") && Contains(ToLower(url), ".png")
    ensures ext == ".webp" <==>
      !Contains(ToLower(url), ".gif") && !Contains(ToLower(url), ".png") && !Contains(ToLower(url), ".jpg") &&
      !Contains(ToLower(url), ".jpeg") && Contains(ToLower(url), ".webp")
  {
    var lower := ToLower(url);
    if Contains(lower, ".gif") then ".gif"
    else if Contains(lower, ".png") then ".png"
    else if Contains(lower, ".jpg") || Contains(lower, ".jpeg") then ".jpg"
    else if Contains(lower, ".webp") then ".webp"
    else ".jpg"
  }

  /** The suffix table of determineContentTypeByFilename, in the order the branches test it: the image rows first. */
  const ImageContentTypes: seq<(string, string)> := [
    (".png", "image/png"), (".jpg", "image/jpeg"), (".jpeg", "image/jpeg"), (".gif", "image/gif"),
    (".svg", "image/svg+xml")]

  const OtherContentTypes: seq<(string, string)> := [
    (".pdf", "application/pdf"), (".txt", "text/plain"), (".html", "text/html"),
    (".css", "text/css"), (".js", "application/javascript"), (".json", "application/json"),
    (".xml", "application/xml"), (".zip", "application/zip"), (".doc", "application/msword"),
    (".docx", "application/vnd.openxmlformats-officedocument.wordprocessingml.document"),
    (".xls", "application/vnd.ms-excel"),
    (".xlsx", "application/vnd.openxmlformats-officedocument.spreadsheetml.sheet"),
    (".ppt", "application/vnd.ms-powerpoint"),
    (".pptx", "application/vnd.openxmlformats-officedocument.presentationml.presentation")]

  const ContentTypes: seq<(string, string)> := ImageContentTypes + OtherContentTypes

  /** The type of the first row whose suffix ends `name`. */
  function SuffixLookup(name: string, table: seq<(string, string)>): (r: Option<string>)
    ensures r.None? <==> forall k :: 0 <= k < |table| ==> !EndsWith(name, table[k].0)
    ensures r.Some? ==> exists k :: (0 <= k < |table| && EndsWith(name, table[k].0) && r.value == table[k].1 &&
      forall j :: 0 <= j < k ==> !EndsWith(name, table[j].0))
  {
    if |table| == 0 then None
    else if EndsWith(name, table[0].0) then Some(table[0].1)
    else
      var r := SuffixLookup(name, table[1..]);
      assert forall k :: 1 <= k < |table| ==> table[k] == table[1..][k - 1];
      r
  }

  /** Looking a name up in two tables in turn is looking it up in the first, then in the second. */
  lemma {:induction false} SuffixLookupAppend(name: string, a: seq<(string, string)>, b: seq<(string, string)>)
    ensures SuffixLookup(name, a + b) == if SuffixLookup(name, a).Some? then SuffixLookup(name, a) else SuffixLookup(name, b)
  {
    if |a| == 0 {
      assert a + b == b;
    } else {
      assert (a + b)[0] == a[0] && (a + b)[1..] == a[1..] + b;
      SuffixLookupAppend(name, a[1..], b);
    }
  }

  /** determineContentTypeByFilename: null and unknown suffixes give "application/octet-stream". */
  function ContentTypeByFilename(filename: Option<string>): (r: string)
    ensures filename.None? ==> r == OctetStream
    ensures filename.Some? && r != OctetStream ==>
      exists k :: 0 <= k < |ContentTypes| && EndsWith(ToLower(filename.value), ContentTypes[k].0) && r == ContentTypes[k].1
    ensures filename.Some? && (forall k :: 0 <= k < |ContentTypes| ==> !EndsWith(ToLower(filename.value), ContentTypes[k].0)) ==>
      r == OctetStream
  {
    if filename.None? then OctetStream
    else SuffixLookup(ToLower(filename.value), ContentTypes).GetOr(OctetStream)
  }

  /** The suffix test ignores case: a name and its lower-cased form get the same type. */
  lemma ContentTypeIgnoresCase(name: string)
    ensures ContentTypeByFilename(Some(name)) == ContentTypeByFilename(Some(ToLower(name)))
  {
    ToLowerIdempotent(name);
  }

  /** A lower-case name that ends with the suffix of image row `k` and of no earlier row gets that row's type. */
  lemma ImageTypeAt(low: string, k: nat)
    requires k < |ImageContentTypes|
    requires EndsWith(low, ImageContentTypes[k].0)
    requires k > 0 ==> !EndsWith(low, ImageContentTypes[0].0)
    requires k > 1 ==> !EndsWith(low, ImageContentTypes[1].0)
    requires k > 2 ==> !EndsWith(low, ImageContentTypes[2].0)
    requires k > 3 ==> !EndsWith(low, ImageContentTypes[3].0)
    ensures SuffixLookup(low, ContentTypes) == Some(ImageContentTypes[k].1)
  {
    assert forall j :: 0 <= j < k ==> !EndsWith(low, ImageContentTypes[j].0);
    SuffixLookupAppend(low, ImageContentTypes, OtherContentTypes);
  }

  /** The extension chosen for a MIME type leads back to that type, with "image/jpeg" for every other type. */
  lemma ExtensionLeadsBackToMime(mime: string)
    ensures ContentTypeByFilename(Some("image" + MimeExtension(mime))) ==
      (if mime in {"image/png", "image/gif", "image/svg+xml"} then mime else "image/jpeg")
  {
    var ext := MimeExtension(mime);
    if ext == ".png" {
      PngName("image");
    } else if ext == ".gif" {
      GifName("image");
    } else if ext == ".svg" {
      SvgName("image");
    } else {
      JpgName("image");
    }
  }

  /** The image rows, spelled out. */
  lemma ImageRows()
    ensures ImageContentTypes[0] == (".png", "image/png") && ImageContentTypes[1] == (".jpg", "image/jpeg")
    ensures ImageContentTypes[2] == (".jpeg", "image/jpeg") && ImageContentTypes[3] == (".gif", "image/gif")
    ensures ImageContentTypes[4] == (".svg", "image/svg+xml")
  {
  }

  lemma PngSuffix(low: string)
    ensures SuffixLookup(low + ".png", ContentTypes) == Some("image/png")
  {
    ImageRows();
    EndsWithSuffix(low, ".png");
    ImageTypeAt(low + ".png", 0);
  }

  lemma PngName(stem: string)
    ensures ContentTypeByFilename(Some(stem + ".png")) == "image/png"
  {
    ToLowerKeepsSuffix(stem, ".png");
    PngSuffix(ToLower(stem));
  }

  lemma JpgSuffix(low: string)
    ensures SuffixLookup(low + ".jpg", ContentTypes) == Some("image/jpeg")
  {
    ImageRows();
    EndsWithSuffix(low, ".jpg");
    NotEndsWithSuffix(low, ".jpg", ".png", 1);
    ImageTypeAt(low + ".jpg", 1);
  }

  lemma JpgName(stem: string)
    ensures ContentTypeByFilename(Some(stem + ".jpg")) == "image/jpeg"
  {
    ToLowerKeepsSuffix(stem, ".jpg");
    JpgSuffix(ToLower(stem));
  }

  lemma GifSuffix(low: string)
    ensures SuffixLookup(low + ".gif", ContentTypes) == Some("image/gif")
  {
    ImageRows();
    EndsWithSuffix(low, ".gif");
    NotEndsWithSuffix(low, ".gif", ".png", 1);
    NotEndsWithSuffix(low, ".gif", ".jpg", 0);
    NotEndsWithSuffix(low, ".gif", ".jpeg", 0);
    ImageTypeAt(low + ".gif", 3);
  }

  lemma GifName(stem: string)
    ensures ContentTypeByFilename(Some(stem + ".gif")) == "image/gif"
  {
    ToLowerKeepsSuffix(stem, ".gif");
    GifSuffix(ToLower(stem));
  }

  lemma SvgSuffix(low: string)
    ensures SuffixLookup(low + ".svg", ContentTypes) == Some("image/svg+xml")
  {
    ImageRows();
    EndsWithSuffix(low, ".svg");
    NotEndsWithSuffix(low, ".svg", ".png", 1);
    NotEndsWithSuffix(low, ".svg", ".jpg", 1);
    NotEndsWithSuffix(low, ".svg", ".jpeg", 1);
    NotEndsWithSuffix(low, ".svg", ".gif", 0);
    ImageTypeAt(low + ".svg", 4);
  }

  lemma SvgName(stem: string)
    ensures ContentTypeByFilename(Some(stem + ".svg")) == "image/svg+xml"
  {
    ToLowerKeepsSuffix(stem, ".svg");
    SvgSuffix(ToLower(stem));
  }

  /** The table has no row for ".webp". */
  lemma WebpName(stem: string)
    ensures ContentTypeByFilename(Some(stem + ".webp")) == OctetStream
  {
    var low := ToLower(stem);
    ToLowerKeepsSuffix(stem, ".webp");
    forall j | 0 <= j < |ImageContentTypes| ensures !EndsWith(low + ".webp", ImageContentTypes[j].0) {
      NotEndsWithSuffix(low, ".webp", ImageContentTypes[j].0, 0);
    }
    forall j | 0 <= j < |OtherContentTypes| ensures !EndsWith(low + ".webp", OtherContentTypes[j].0) {
      NotEndsWithSuffix(low, ".webp", OtherContentTypes[j].0, if j == 7 then 1 else 0);
    }
    SuffixLookupAppend(low + ".webp", ImageContentTypes, OtherContentTypes);
  }



  /** An image saved from an http(s) URL gets an image content type, except a ".webp" one, which the table lacks. */
  lemma ExternalImageContentType(url: string)
    ensures DetermineImageExtension(url) == ".webp" ==>
      ContentTypeByFilename(Some("image" + DetermineImageExtension(url))) == OctetStream
    ensures DetermineImageExtension(url) != ".webp" ==>
      StartsWith(ContentTypeByFilename(Some("image" + DetermineImageExtension(url))), "image/")
  {
    ImageExtensionContentType(DetermineImageExtension(url));
  }

  lemma ImageExtensionContentType(ext: string)
    requires ext in {".gif", ".png", ".jpg", ".webp"}
    ensures ext == ".webp" ==> ContentTypeByFilename(Some("image" + ext)) == OctetStream
    ensures ext != ".webp" ==> StartsWith(ContentTypeByFilename(Some("image" + ext)), "image/")
  {
    if ext == ".webp" {
      WebpName("image");
    } else if ext == ".gif" {
      GifName("image");
    } else if ext == ".png" {
      PngName("image");
    } else {
      JpgName("image");
    }
  }

  /** getFormatName: "png", "gif" or "bmp" when the content type mentions it (in that order), else "jpeg". */
  function FormatName(contentType: string): (r: string)
    ensures r in {"png", "gif", "bmp", "jpeg"}
    ensures r == "png" <==> Contains(contentType, "png")
    ensures r == "gif" <==> !Contains(contentType, "png") && Contains(contentType, "gif")
    ensures r == "bmp" <==> !Contains(contentType, "png") && !Contains(contentType, "gif") && Contains(contentType, "bmp")
    ensures r == "jpeg" <==> !Contains(contentType, "png") && !Contains(contentType, "gif") && !Contains(contentType, "bmp")
  {
    if Contains(contentType, "png") then "png"
    else if Contains(contentType, "gif") then "gif"
    else if Contains(contentType, "bmp") then "bmp"
    else "jpeg"
  }

  /**
   * extractImageFromJson on the body as text: trimmed, one pair of enclosing double quotes
   * removed, and kept only when it is then a `data:image/` URI. A lone '"' makes
   * `substring(1, 0)` throw, which the method turns into null.
   */
  function ExtractImageFromJson(json: string): (r: Option<string>)
    ensures r.Some? ==> StartsWith(r.value, "data:image/")
    ensures r.Some? ==> r.value == Trim(json) || Trim(json) == "\"" + r.value + "\""
    ensures Trim(json) == "\"" ==> r.None?
  {
    match Unquoted(Trim(json))
    case Some(u) => if StartsWith(u, "data:image/") then Some(u) else None
    case None => None
  }

  /** One pair of enclosing double quotes removed; a lone '"' has no inside and is refused. */
  function Unquoted(t: string): (r: Option<string>)
    ensures t == "\"" ==> r.None?
    ensures r.Some? ==> r.value == t || t == "\"" + r.value + "\""
  {
    if StartsWith(t, "\"") && EndsWith(t, "\"") then
      if |t| >= 2 then
        assert t == "\"" + t[1..|t| - 1] + "\"";
        Some(t[1..|t| - 1])
      else None
    else Some(t)
  }

  /** A data URI comes back from a JSON string literal that holds it, and from the bare text as well. */
  lemma DataUriExtracted(uri: string)
    requires StartsWith(uri, "data:image/")
    ensures ExtractImageFromJson("\"" + uri + "\"") == Some(uri)
    ensures !IsTrimmable(uri[|uri| - 1]) ==> ExtractImageFromJson(uri) == Some(uri)
  {
    TrimKeeps("\"" + uri + "\"");
    UnquotedOfQuoted(uri);
    if !IsTrimmable(uri[|uri| - 1]) {
      TrimKeeps(uri);
    }
  }

  /** Text inside one pair of double quotes comes out whole. */
  lemma UnquotedOfQuoted(u: string)
    ensures Unquoted("\"" + u + "\"") == Some(u)
  {
    var t := "\"" + u + "\"";
    assert t[1..|t| - 1] == u;
  }

  // ---------------------------------------------------------------------------------------
  // The service

  class PostAttachmentService {
    /** postAttachmentRepository, in save order */
    var attachments: seq<Attachment>
    /** the id the next saved row receives */
    var nextId: nat
    /** memberRepository, as the set of member ids */
    const members: set<int>
    /** `file.max-size`, in bytes */
    const maxFileSize: nat
    /** `file.max-per-user` */
    const maxFilesPerUser: int

    ghost predicate Valid()
      reads this
    {
      Ordered(attachments, nextId)
    }

    constructor (members: set<int>, maxFileSize: nat, maxFilesPerUser: int)
      ensures Valid() && attachments == [] && this.members == members
      ensures this.maxFileSize == maxFileSize && this.maxFilesPerUser == maxFilesPerUser
    {
      this.attachments := [];
      this.nextId := 1;
      this.members := members;
      this.maxFileSize := maxFileSize;
      this.maxFilesPerUser := maxFilesPerUser;
    }

    /**
     * processMarkdownImages, over the matches of the text as Classified reads them (the
     * reading of one match does not depend on the others), with `stored` what storage
     * reports for each image saved from a match.
     */
    method ProcessMarkdownImages(kinds: seq<RefKind>, stored: seq<Option<StoredImage>>, memberId: int, imageType: ImageType)
      returns (found: seq<Attachment>)
      requires Valid() && |stored| == |kinds|
      modifies this`attachments, this`nextId
      ensures Processing(found, attachments, nextId) == ProcessRefs(old(attachments), kinds, stored, old(nextId), memberId, imageType)
      ensures Valid() && NoDuplicates(found)
    {
      found := [];
      var i := 0;
      while i < |kinds|
        invariant 0 <= i <= |kinds|
        invariant Processing(found, attachments, nextId) == ProcessRefs(old(attachments), kinds[..i], stored[..i], old(nextId), memberId, imageType)
      {
        found := ProcessMatch(kinds[i], stored[i], memberId, imageType, found);
        ProcessRefsStep(old(attachments), kinds, stored, old(nextId), memberId, imageType, i);
        i := i + 1;
      }
      assert kinds[..i] == kinds && stored[..i] == stored;
      ProcessRefsKeepsOrder(old(attachments), kinds, stored, old(nextId), memberId, imageType);
    }

    /**
     * One pass of the `while (matcher.find())` loop: an internal reference lists its stored
     * image once; a new image, when storage saved it, becomes a row with the next id.
     */
    method ProcessMatch(kind: RefKind, stored: Option<StoredImage>, memberId: int, imageType: ImageType, found: seq<Attachment>)
      returns (found': seq<Attachment>)
      modifies this`attachments, this`nextId
      ensures Processing(found', attachments, nextId) ==
        ProcessRef(Processing(found, old(attachments), old(nextId)), kind, stored, memberId, imageType)
    {
      found' := found;
      match kind
      case Internal(uid) =>
        var hit := FindByUid(attachments, uid);
        if hit.Some? && hit.value !in found {
          found' := found + [hit.value];
        }
      case NewImage(filename) =>
        if stored.Some? {
          var a := Attachment(nextId, memberId, Some(filename), stored.value.storeFilePath,
                              stored.value.fileSize, imageType, Some(stored.value.uniqueIdentifier));
          attachments := attachments + [a];
          found' := found + [a];
          nextId := nextId + 1;
        }
      case Skipped =>
    }

    /**
     * uploadFiles. An unknown member and a batch that would pass the per-user limit are
     * refused before any file is looked at; then each file must be non-empty, within the
     * size limit and accepted by storage, or the whole batch is rolled back with the first
     * failure. A non-empty markdown text then adds the images it refers to or embeds.
     * `urls` and `uids` are what storage and the UUID generator give for each file.
     */
    method UploadFiles(files: seq<MultipartFile>, imageType: ImageType, memberId: int,
                       urls: seq<Option<string>>, uids: seq<string>,
                       markdownText: Option<string>, refs: seq<ImageRef>, stored: seq<Option<StoredImage>>)
      returns (r: Result<seq<FileInfo>, ErrorCode>)
      requires Valid() && |urls| == |files| && |uids| == |files| && |stored| == |refs|
      modifies this`attachments, this`nextId
      ensures r.Ok? ==>
        Outcome(attachments, nextId, r.value) == UploadOutcome(old(attachments), old(nextId), files, urls, uids, imageType, memberId, markdownText, refs, stored)
      ensures Valid()
      ensures r.Err? ==> attachments == old(attachments)
      ensures memberId !in members ==> r == Err(UnauthorizedAccess)
      ensures memberId in members && CountOf(old(attachments), memberId) + |files| > maxFilesPerUser ==>
        r == Err(FileUploadLimitExceeded)
      ensures memberId in members && CountOf(old(attachments), memberId) + |files| <= maxFilesPerUser ==>
        var b := StoredBatch(files, urls, uids, imageType, memberId, old(nextId), maxFileSize);
        (r.Err? <==> b.Err?) && (r.Err? ==> r.error == b.error)
    {
      if memberId !in members {
        r := Err(UnauthorizedAccess);
      } else if CountOf(attachments, memberId) + |files| > maxFilesPerUser {
        r := Err(FileUploadLimitExceeded);
      } else {
        r := UploadAccepted(files, imageType, memberId, urls, uids, markdownText, refs, stored);
      }
    }

    /** uploadFiles once the member and the limit have been checked: the files, then the markdown text. */
    method UploadAccepted(files: seq<MultipartFile>, imageType: ImageType, memberId: int,
                          urls: seq<Option<string>>, uids: seq<string>,
                          markdownText: Option<string>, refs: seq<ImageRef>, stored: seq<Option<StoredImage>>)
      returns (r: Result<seq<FileInfo>, ErrorCode>)
      requires Valid() && |urls| == |files| && |uids| == |files| && |stored| == |refs|
      modifies this`attachments, this`nextId
      ensures r.Ok? ==>
        Outcome(attachments, nextId, r.value) == UploadOutcome(old(attachments), old(nextId), files, urls, uids, imageType, memberId, markdownText, refs, stored)
      ensures Valid()
      ensures r.Err? ==> attachments == old(attachments)
      ensures var b := StoredBatch(files, urls, uids, imageType, memberId, old(nextId), maxFileSize);
        (r.Err? <==> b.Err?) && (r.Err? ==> r.error == b.error)
    {
      ghost var b := StoredBatch(files, urls, uids, imageType, memberId, nextId, maxFileSize);
      ghost var before, firstId := attachments, nextId;
      assert b.Ok? ==> b.value == UploadedRows(files, urls, uids, imageType, memberId, nextId);
      var uploaded := StoreFiles(files, imageType, memberId, urls, uids);
      if uploaded.Err? {
        r := Err(uploaded.error);
        return;
      }
      var infos := CompleteUpload(files, imageType, memberId, urls, uids, markdownText, refs, stored, uploaded.value, before, firstId,
                                  UploadedRows(files, urls, uids, imageType, memberId, firstId));
      r := Ok(infos);
    }

    /** uploadFiles after the file loop saved every file: the markdown text's images follow the files'. */
    method CompleteUpload(files: seq<MultipartFile>, imageType: ImageType, memberId: int,
                          urls: seq<Option<string>>, uids: seq<string>,
                          markdownText: Option<string>, refs: seq<ImageRef>, stored: seq<Option<StoredImage>>,
                          uploaded: seq<FileInfo>, ghost before: seq<Attachment>, ghost firstId: nat, ghost rows: seq<Attachment>)
      returns (infos: seq<FileInfo>)
      requires Valid() && |urls| == |files| && |uids| == |files| && |stored| == |refs|
      requires rows == UploadedRows(files, urls, uids, imageType, memberId, firstId)
      requires attachments == before + rows && nextId == firstId + |files| && uploaded == UploadedInfos(rows)
      modifies this`attachments, this`nextId
      ensures Valid()
      ensures Outcome(attachments, nextId, infos) ==
        UploadOutcome(before, firstId, files, urls, uids, imageType, memberId, markdownText, refs, stored)
    {
      ghost var base, baseId := attachments, firstId + |files|;
      ghost var p := MarkdownPass(base, baseId, markdownText, refs, stored, memberId, imageType);
      var found := ProcessMarkdownText(markdownText, refs, stored, memberId, imageType, base, baseId);
      assert found == p.found && attachments == p.repo && nextId == p.nextId;
      infos := uploaded + MarkdownInfos(found);
      SamePass(base, baseId, firstId + |files|, markdownText, refs, stored, memberId, imageType);
      UploadOutcomeOf(before, firstId, files, urls, uids, imageType, memberId, markdownText, refs, stored,
                      rows, base, uploaded, p);
    }

    /** The markdown half of uploadFiles: a present, non-empty text has its image references processed. */
    method ProcessMarkdownText(markdownText: Option<string>, refs: seq<ImageRef>, stored: seq<Option<StoredImage>>,
                               memberId: int, imageType: ImageType, ghost base: seq<Attachment>, ghost baseId: nat)
      returns (found: seq<Attachment>)
      requires Valid() && |stored| == |refs| && attachments == base && nextId == baseId
      modifies this`attachments, this`nextId
      ensures Valid()
      ensures Processing(found, attachments, nextId) == MarkdownPass(base, baseId, markdownText, refs, stored, memberId, imageType)
    {
      if markdownText.Some? && markdownText.value != "" {
        assert stored[..|refs|] == stored;
        found := ProcessMarkdownImages(Classified(refs), stored, memberId, imageType);
      } else {
        assert stored[..0] == [];
        found := [];
      }
    }

    /** The per-file loop of uploadFiles: validate, store and record each file in order. */
    method StoreFiles(files: seq<MultipartFile>, imageType: ImageType, memberId: int,
                      urls: seq<Option<string>>, uids: seq<string>)
      returns (r: Result<seq<FileInfo>, ErrorCode>)
      requires Valid() && |urls| == |files| && |uids| == |files|
      modifies this`attachments, this`nextId
      ensures var b := StoredBatch(files, urls, uids, imageType, memberId, old(nextId), maxFileSize);
        r.Ok? <==> b.Ok?
      ensures var b := StoredBatch(files, urls, uids, imageType, memberId, old(nextId), maxFileSize);
        r.Ok? ==> attachments == old(attachments) + b.value && nextId == old(nextId) + |files| && r.value == UploadedInfos(b.value)
      ensures var b := StoredBatch(files, urls, uids, imageType, memberId, old(nextId), maxFileSize);
        r.Err? ==> r.error == b.error && attachments == old(attachments)
      ensures Valid()
    {
      var before := attachments;
      var firstId := nextId;
      ghost var rows := UploadedRows(files, urls, uids, imageType, memberId, firstId);
      var saved: seq<Attachment> := [];
      var i := 0;
      while i < |files|
        invariant 0 <= i <= |files| && nextId == firstId + i
        invariant forall k :: 0 <= k < i ==> FileCheck(files[k], maxFileSize, urls[k]).None?
        invariant saved == rows[..i] && attachments == before + saved
        invariant Valid()
      {
        var failure := FileCheck(files[i], maxFileSize, urls[i]);
        if failure.Some? {
          // the exception rolls the transaction back
          attachments := before;
          RaiseBound(before, firstId, nextId);
          FirstFailureAt(files, urls, maxFileSize, i);
          return Err(failure.value);
        }
        var row := UploadedRow(nextId, memberId, files[i], imageType, urls[i].value, uids[i]);
        UploadedRowsStep(files, urls, uids, imageType, memberId, firstId, i);
        OrderedAppend(attachments, row, nextId);
        attachments := attachments + [row];
        saved := saved + [row];
        nextId := nextId + 1;
        i := i + 1;
      }
      assert rows[..i] == rows;
      FirstFailureNone(files, urls, maxFileSize);
      r := Ok(UploadedInfos(saved));
    }

    /**
     * processMarkdownOnly: an absent or empty text yields nothing; otherwise the member must
     * exist, and when images were found the member's stored files (already counting the
     * ones just saved) plus the found ones must stay within the per-user limit, or
     * everything is rolled back.
     */
    method ProcessMarkdownOnly(markdownText: Option<string>, imageType: ImageType, memberId: int,
                               refs: seq<ImageRef>, stored: seq<Option<StoredImage>>)
      returns (r: Result<seq<FileInfo>, ErrorCode>)
      requires Valid() && |stored| == |refs|
      modifies this`attachments, this`nextId
      ensures Valid()
      ensures r.Err? ==> attachments == old(attachments)
      ensures markdownText.None? || markdownText.value == "" ==> r == Ok([]) && attachments == old(attachments)
      ensures markdownText.Some? && markdownText.value != "" && memberId !in members ==> r == Err(UnauthorizedAccess)
      ensures markdownText.Some? && markdownText.value != "" && memberId in members ==>
        var p := MarkdownPass(old(attachments), old(nextId), markdownText, refs, stored, memberId, imageType);
        if p.found == [] then r == Ok([]) && attachments == p.repo
        else if CountOf(p.repo, memberId) + |p.found| > maxFilesPerUser then r == Err(FileUploadLimitExceeded)
        else r == Ok(MarkdownInfos(p.found)) && attachments == p.repo
    {
      if markdownText.None? || markdownText.value == "" {
        return Ok([]);
      }
      if memberId !in members {
        return Err(UnauthorizedAccess);
      }
      var before, beforeId := attachments, nextId;
      assert stored[..|refs|] == stored;
      var found := ProcessMarkdownImages(Classified(refs), stored, memberId, imageType);
      if found == [] {
        return Ok([]);
      }
      if CountOf(attachments, memberId) + |found| > maxFilesPerUser {
        // the exception rolls the transaction back; the id sequence does not
        ProcessRefsGrows(before, Classified(refs), stored, beforeId, memberId, imageType);
        RaiseBound(before, beforeId, nextId);
        attachments := before;
        return Err(FileUploadLimitExceeded);
      }
      r := Ok(MarkdownInfos(found));
    }

    /** deleteFile: only the owner may delete; a Firebase-stored file is removed from storage first. */
    method DeleteFile(attachmentId: int, memberId: int, storageDeleteFails: bool) returns (r: Result<(), ErrorCode>)
      requires Valid()
      modifies this`attachments
      ensures Valid()
      ensures r.Err? ==> attachments == old(attachments)
      ensures DeleteGuard(old(attachments), attachmentId, memberId).Some? ==>
        r == Err(DeleteGuard(old(attachments), attachmentId, memberId).value)
      ensures DeleteGuard(old(attachments), attachmentId, memberId).None? ==>
        var a := FindById(old(attachments), attachmentId).value;
        if Contains(a.storeFilePath, FirebaseHost) && storageDeleteFails then r == Err(FileUploadError)
        else r == Ok(()) && attachments == RemoveId(old(attachments), attachmentId)
    {
      var guard := DeleteGuard(attachments, attachmentId, memberId);
      if guard.Some? {
        return Err(guard.value);
      }
      var a := FindById(attachments, attachmentId).value;
      if Contains(a.storeFilePath, FirebaseHost) && storageDeleteFails {
        return Err(FileUploadError);
      }
      RemoveIdKeepsOrder(attachments, attachmentId, nextId);
      attachments := RemoveId(attachments, attachmentId);
      r := Ok(());
    }

    /**
     * uploadPastedImage: the member must exist and the image fit the size limit; the row is
     * a self-introduction markdown image named after its MIME type's extension. A null MIME
     * type fails its first `equals` inside the `try` and becomes FILE_UPLOAD_ERROR, as a
     * storage failure does.
     */
    method UploadPastedImage(size: nat, contentType: Option<string>, memberId: int, url: Option<string>, uid: string)
      returns (r: Result<FileInfo, ErrorCode>)
      requires Valid()
      modifies this`attachments, this`nextId
      ensures Valid()
      ensures r.Err? ==> attachments == old(attachments)
      ensures memberId !in members ==> r == Err(UnauthorizedAccess)
      ensures memberId in members && size > maxFileSize ==> r == Err(FileSizeExceeded)
      ensures memberId in members && size <= maxFileSize && (contentType.None? || url.None?) ==> r == Err(FileUploadError)
      ensures memberId in members && size <= maxFileSize && contentType.Some? && url.Some? ==>
        var a := Attachment(old(nextId), memberId, Some("pasted_image" + MimeExtension(contentType.value)), url.value, size,
                            MarkdownSelfIntroduction, Some(uid));
        attachments == old(attachments) + [a] && r == Ok(MarkdownInfo(a))
    {
      if memberId !in members {
        return Err(UnauthorizedAccess);
      }
      if size > maxFileSize {
        return Err(FileSizeExceeded);
      }
      if contentType.None? || url.None? {
        return Err(FileUploadError);
      }
      var a := Attachment(nextId, memberId, Some("pasted_image" + MimeExtension(contentType.value)), url.value, size,
                          MarkdownSelfIntroduction, Some(uid));
      attachments := attachments + [a];
      nextId := nextId + 1;
      r := Ok(MarkdownInfo(a));
    }
  }
}
