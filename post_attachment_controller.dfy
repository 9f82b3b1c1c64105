/**
 * PostAttachmentController: the ownership check in front of the markdown upload, the
 * mapping from caught exceptions to HTTP statuses, and the inline Content-Disposition
 * header of the markdown-image download (section 4.3 of RFC 6266, with the filename as
 * an ext-value of section 3.2 of RFC 5987).
 */
module PostAttachmentControllers {
  import opened Wrappers
  import opened Text
  import opened PostAttachments

  /** What a handler's catch clauses tell apart. */
  datatype Failure =
    | IllegalState(message: string)
      /** a PostAttachmentException, carrying its error code's HTTP status */
    | AttachmentFailure(code: ErrorCode, status: int, message: string)
    | Unexpected(message: string)

  /** `ResponseEntity<ApiResponse<?>>`: the status, ApiResponse's success flag, its message and data. */
  datatype Response = Response(status: int, success: bool, message: string, data: Option<seq<FileInfo>>)

  const BadRequest := 400
  const Forbidden := 403
  const NotFound := 404
  const Created := 201
  const InternalServerError := 500

  const ServerErrorPrefix := "서버 오류가 발생했습니다: "

  /** The three catch clauses shared by the controller's handlers. */
  function FailureResponse(f: Failure): (r: Response)
    ensures !r.success && r.data.None?
    ensures f.IllegalState? ==> r.status == BadRequest && r.message == f.message
    ensures f.AttachmentFailure? ==> r.status == f.status && r.message == f.message
    ensures f.Unexpected? ==> r.status == InternalServerError && r.message == ServerErrorPrefix + f.message
  {
    match f
    case IllegalState(m) => Response(BadRequest, false, m, None)
    case AttachmentFailure(_, status, m) => Response(status, false, m, None)
    case Unexpected(m) => Response(InternalServerError, false, ServerErrorPrefix + m, None)
  }

  /** Who may upload into a proposal: its owner, when the id names one. */
  predicate OwnsProposal(proposalId: int, userId: int, applyOwners: map<int, int>, editOwners: map<int, int>) {
    if proposalId in applyOwners then applyOwners[proposalId] == userId
    else proposalId in editOwners && editOwners[proposalId] == userId
  }

  /**
   * The checks uploadMarkdownContent makes before calling the service: None lets the upload
   * proceed, otherwise the refusal. `applyOwners` and `editOwners` map the ids of mentor
   * apply and edit proposals to their members' ids. The final `!isOwner` test of the source
   * cannot fire: every path that reaches it has set `isOwner`.
   */
  function UploadGate(introduction: Option<string>, proposalId: int, userId: int,
                      applyOwners: map<int, int>, editOwners: map<int, int>): (r: Option<Response>)
    ensures r.None? <==> introduction.Some? && introduction.value != "" && OwnsProposal(proposalId, userId, applyOwners, editOwners)
    ensures r.Some? ==> !r.value.success && r.value.status in {BadRequest, Forbidden, NotFound}
    ensures r.Some? && r.value.status == BadRequest <==> introduction.None? || introduction.value == ""
    ensures r.Some? && r.value.status == NotFound <==>
      introduction.Some? && introduction.value != "" && proposalId !in applyOwners && proposalId !in editOwners
  {
    if introduction.None? || introduction.value == "" then
      Some(Response(BadRequest, false, "마크다운 텍스트는 필수입니다.", None))
    else if proposalId in applyOwners then
      if applyOwners[proposalId] == userId then None
      else Some(Response(Forbidden, false, "본인의 지원서만 수정할 수 있습니다.", None))
    else if proposalId in editOwners then
      if editOwners[proposalId] == userId then None
      else Some(Response(Forbidden, false, "본인의 수정 요청만 변경할 수 있습니다.", None))
    else Some(Response(NotFound, false, "멘토 지원서 또는 정보 수정 요청을 찾을 수 없습니다.", None))
  }

  /** An apply proposal with the id decides alone: edit proposals are then never consulted. */
  lemma ApplyProposalShadowsEdit(introduction: Option<string>, proposalId: int, userId: int,
                                 applyOwners: map<int, int>, editOwners: map<int, int>, editOwners': map<int, int>)
    requires proposalId in applyOwners
    ensures UploadGate(introduction, proposalId, userId, applyOwners, editOwners)
      == UploadGate(introduction, proposalId, userId, applyOwners, editOwners')
  {
  }

  /**
   * uploadMarkdownContent. `uploaded` is what the service call returns or throws; it is
   * only consulted once the gate lets the request through.
   */
  function UploadMarkdownContent(introduction: Option<string>, proposalId: int, userId: int,
                                 applyOwners: map<int, int>, editOwners: map<int, int>,
                                 uploaded: Result<seq<FileInfo>, Failure>): (r: Response)
    ensures r.success ==> r.status == Created
    ensures r.success <==> UploadGate(introduction, proposalId, userId, applyOwners, editOwners).None? && uploaded.Ok?
    ensures r.success ==> r.data == Some(uploaded.value)
    ensures UploadGate(introduction, proposalId, userId, applyOwners, editOwners).Some? ==>
      r == UploadGate(introduction, proposalId, userId, applyOwners, editOwners).value
    ensures UploadGate(introduction, proposalId, userId, applyOwners, editOwners).None? && uploaded.Err? ==>
      r == FailureResponse(uploaded.error)
  {
    match UploadGate(introduction, proposalId, userId, applyOwners, editOwners)
    case Some(refusal) => refusal
    case None =>
      match uploaded
      case Ok(files) => Response(Created, true, "업로드에 성공했습니다.", Some(files))
      case Err(f) => FailureResponse(f)
  }

  const InlineFilenamePrefix := "inline; filename*=UTF-8''"

  /**
   * The Content-Disposition of downloadMarkdownImage. `encoded` is what
   * `URLEncoder.encode(fileName, UTF_8)` returns for a present, non-empty name; its
   * '+' (the form encoding of a space) is rewritten as "%20".
   */
  function InlineContentDisposition(fileName: Option<string>, encoded: string): (h: string)
    ensures h == "inline" <==> fileName.None? || fileName.value == "" || encoded == ""
    ensures h != "inline" ==> StartsWith(h, InlineFilenamePrefix) && |h| > |InlineFilenamePrefix|
    ensures '+' !in h
  {
    var name := if fileName.Some? && fileName.value != "" then ReplaceChar(encoded, '+', "%20") else "";
    if name == "" then "inline" else InlineFilenamePrefix + name
  }

  /** The text after "filename*=UTF-8''" of an inline header, when it names a file. */
  function FilenameValue(h: string): (v: Option<string>)
    ensures v.Some? ==> InlineFilenamePrefix + v.value == h
  {
    if StartsWith(h, InlineFilenamePrefix) then Some(h[|InlineFilenamePrefix|..]) else None
  }

  /** "%20" starts at index `i` of `s`. */
  predicate EncodedSpaceAt(s: string, i: int) {
    0 <= i && i + 2 < |s| && s[i] == '%' && s[i + 1] == '2' && s[i + 2] == '0'
  }

  /** Reads every "%20" back as the '+' it replaced, scanning left to right. */
  function RestorePlus(s: string): (r: string)
    ensures |r| <= |s|
  {
    if |s| == 0 then ""
    else if EncodedSpaceAt(s, 0) then ['+'] + RestorePlus(s[3..])
    else [s[0]] + RestorePlus(s[1..])
  }

  /**
   * URLEncoder never writes "%20" (it encodes a space as '+'), so rewriting '+' as "%20"
   * loses nothing: reading "%20" back as '+' restores the encoder's output.
   */
  lemma {:induction false} RestorePlusInvertsRewrite(encoded: string)
    requires forall i :: !EncodedSpaceAt(encoded, i)
    ensures RestorePlus(ReplaceChar(encoded, '+', "%20")) == encoded
  {
    if |encoded| > 0 {
      var rest := encoded[1..];
      forall i ensures !EncodedSpaceAt(rest, i) {
        assert !EncodedSpaceAt(encoded, i + 1);
      }
      RestorePlusInvertsRewrite(rest);
      var tail := ReplaceChar(rest, '+', "%20");
      if encoded[0] == '+' {
        assert ReplaceChar(encoded, '+', "%20") == "%20" + tail;
        assert ("%20" + tail)[3..] == tail;
      } else {
        var s := [encoded[0]] + tail;
        assert ReplaceChar(encoded, '+', "%20") == s;
        assert !EncodedSpaceAt(s, 0) by {
          assert !EncodedSpaceAt(encoded, 0);
          if |rest| > 0 { ReplaceCharHead(rest); }
          if |rest| > 1 { ReplaceCharHead(rest[1..]); }
        }
        assert s[1..] == tail;
      }
    }
  }

  /** The first character of the rewrite: '%' where the text starts with '+', else the text's own. */
  lemma ReplaceCharHead(s: string)
    requires |s| > 0
    ensures ReplaceChar(s, '+', "%20")[0] == if s[0] == '+' then '%' else s[0]
    ensures ReplaceChar(s, '+', "%20")[1..] == (if s[0] == '+' then "20" else "") + ReplaceChar(s[1..], '+', "%20")
  {
  }

  /** The header of a named image gives back the encoder's output. */
  lemma InlineFilenameRoundTrip(fileName: string, encoded: string)
    requires fileName != "" && encoded != "" && forall i :: !EncodedSpaceAt(encoded, i)
    ensures FilenameValue(InlineContentDisposition(Some(fileName), encoded)).Some?
    ensures RestorePlus(FilenameValue(InlineContentDisposition(Some(fileName), encoded)).value) == encoded
  {
    var h := InlineContentDisposition(Some(fileName), encoded);
    assert h == InlineFilenamePrefix + ReplaceChar(encoded, '+', "%20");
    assert h[|InlineFilenamePrefix|..] == ReplaceChar(encoded, '+', "%20");
    RestorePlusInvertsRewrite(encoded);
  }
}
