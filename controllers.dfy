/** The input handling of the files API: the claim that identifies the caller
    (server/src/Cloudy.API/Controllers/BaseController.cs) and what each action of
    `FilesController` (server/src/Cloudy.API/Controllers/FilesController.cs) does before and
    after it calls the file service. An action either answers at once (a bad request) or
    throws, or hands one request to the service; the service itself is modelled in
    `ApplicationFileService`. */
module Controllers {
  import opened Wrappers
  import opened Exceptions
  import opened Text
  import opened ValueObjects
  import opened ApplicationFileService

  datatype Claim = Claim(claimType: string, value: string)

  /** `ControllerBase.User`: no principal, or the claims of the authenticated one. */
  type Principal = Option<seq<Claim>>

  /** `JwtRegisteredClaimNames.Sub`. */
  const SUB: string := "sub"
  /** `ClaimTypes.NameIdentifier`. */
  const NAME_IDENTIFIER: string := "http://schemas.xmlsoap.org/ws/2005/05/identity/claims/nameidentifier"
  const NOT_AUTHENTICATED: string := "User not authenticated"
  const OCTET_STREAM: string := "application/octet-stream"

  /** Claim types are compared ordinally, ignoring case. */
  predicate SameClaimType(a: string, b: string) {
    Lower(a) == Lower(b)
  }

  /** `FindFirst(type)?.Value`: the value of the first claim of that type. */
  function FindFirst(claims: seq<Claim>, claimType: string): (r: Option<string>)
    ensures r.None? <==> forall i :: 0 <= i < |claims| ==> !SameClaimType(claims[i].claimType, claimType)
    ensures r.Some? ==> exists i :: 0 <= i < |claims| && SameClaimType(claims[i].claimType, claimType)
                                    && claims[i].value == r.value
                                    && forall j :: 0 <= j < i ==> !SameClaimType(claims[j].claimType, claimType)
  {
    if claims == [] then None
    else if SameClaimType(claims[0].claimType, claimType) then Some(claims[0].value)
    else FindFirst(claims[1..], claimType)
  }

  /** `FindFirst(Sub)?.Value ?? FindFirst(NameIdentifier)?.Value`: the identifier claim is
      consulted only when there is no "sub" claim at all. */
  function UserIdClaim(claims: seq<Claim>): Option<string> {
    match FindFirst(claims, SUB)
    case Some(v) => Some(v)
    case None => FindFirst(claims, NAME_IDENTIFIER)
  }

  /** `GetCurrentUserId()`. */
  function GetCurrentUserId(user: Principal): (r: Result<Int32, Exception>)
    ensures r.Err? ==> r.error == UnauthorizedAccessException(NOT_AUTHENTICATED)
    ensures r.Ok? <==> user.Some? && UserIdClaim(user.value).Some? && UserIdClaim(user.value).value != ""
                       && TryParseInt32(UserIdClaim(user.value).value).Some?
    ensures r.Ok? ==> Some(r.value) == TryParseInt32(UserIdClaim(user.value).value)
  {
    if user.None? then Err(UnauthorizedAccessException(NOT_AUTHENTICATED))
    else
      var value := UserIdClaim(user.value);
      if IsNullOrEmpty(value) then Err(UnauthorizedAccessException(NOT_AUTHENTICATED))
      else
        match TryParseInt32(value.value)
        case None => Err(UnauthorizedAccessException(NOT_AUTHENTICATED))
        case Some(id) => Ok(id)
  }

  /** A "sub" claim decides the caller even when an identifier claim comes first; an
      empty "sub" is refused rather than falling back to the identifier. */
  lemma SubClaimWins(id: Int32, other: string)
    ensures GetCurrentUserId(Some([Claim(NAME_IDENTIFIER, other), Claim(SUB, IntToString(id))])) == Ok(id)
    ensures GetCurrentUserId(Some([Claim(SUB, ""), Claim(NAME_IDENTIFIER, IntToString(id))])).Err?
  {
    Int32RoundTrip(id);
    assert FindFirst([Claim(NAME_IDENTIFIER, other), Claim(SUB, IntToString(id))], SUB) == Some(IntToString(id));
  }

  /** Without a "sub" claim the identifier claim is used. */
  lemma NameIdentifierFallback(id: Int32)
    ensures GetCurrentUserId(Some([Claim(NAME_IDENTIFIER, IntToString(id))])) == Ok(id)
  {
    Int32RoundTrip(id);
  }

  /** The claim type is matched whatever its case: "SUB" is a "sub" claim, and an empty
      "Sub" claim is refused rather than falling back to the identifier. */
  lemma ClaimTypeIgnoresCase(id: Int32)
    ensures GetCurrentUserId(Some([Claim("SUB", IntToString(id))])) == Ok(id)
    ensures GetCurrentUserId(Some([Claim("Sub", ""), Claim(NAME_IDENTIFIER, IntToString(id))])).Err?
  {
    assert Lower("SUB") == SUB by {
      assert Lower("SUB")[0] == 's' && Lower("SUB")[1] == 'u' && Lower("SUB")[2] == 'b';
    }
    assert Lower("Sub") == SUB by {
      assert Lower("Sub")[0] == 's' && Lower("Sub")[1] == 'u' && Lower("Sub")[2] == 'b';
    }
    assert Lower(SUB) == SUB;
    var found := FindFirst([Claim("SUB", IntToString(id))], SUB);
    assert found == Some(IntToString(id));
    assert FindFirst([Claim("Sub", ""), Claim(NAME_IDENTIFIER, IntToString(id))], SUB) == Some("");
    Int32RoundTrip(id);
  }

  /** A caller id that is not a number is refused. */
  lemma NonNumericClaimRefused(claims: seq<Claim>)
    requires UserIdClaim(claims).Some?
    requires forall i :: 0 <= i < |UserIdClaim(claims).value| ==> !IsDigit(UserIdClaim(claims).value[i])
    ensures GetCurrentUserId(Some(claims)) == Err(UnauthorizedAccessException(NOT_AUTHENTICATED))
  {
    TryParseRejectsNonNumeric(UserIdClaim(claims).value);
  }

  /** What an action does: answer 400 with a message, throw, or call the service. */
  datatype Action<T> = BadRequest(message: string) | Throw(error: Exception) | Call(request: T)

  /** The action once the caller's id is needed: a refused claim throws. */
  function WithCaller<T>(user: Principal, make: Int32 -> T): (a: Action<T>)
    ensures GetCurrentUserId(user).Err? ==> a == Throw(GetCurrentUserId(user).error)
    ensures GetCurrentUserId(user).Ok? ==> a == Call(make(GetCurrentUserId(user).value))
  {
    match GetCurrentUserId(user)
    case Err(e) => Throw(e)
    case Ok(id) => Call(make(id))
  }

  datatype CreateIntentRequest = CreateIntentRequest(fileName: string, contentType: string, sizeBytes: Int64)
  datatype CreateIntentResponse = CreateIntentResponse(uploadUrl: string, fileId: string)
  datatype FinalizeRequest = FinalizeRequest(objectKey: string, originalName: string, contentType: string, sizeBytes: Int64)
  datatype RenameRequest = RenameRequest(newName: string)

  /** Upload URLs and download URLs are valid for ten minutes. */
  const LINK_TTL: TimeSpan := FromMinutes(10)

  /** A blank content type becomes "application/octet-stream". */
  function ContentTypeOrDefault(contentType: string): (r: string)
    ensures !IsBlank(r)
    ensures !IsBlank(contentType) ==> r == contentType
  {
    if IsBlank(contentType) then
      assert !IsDotNetWhiteSpace(OCTET_STREAM[0]);
      OCTET_STREAM
    else contentType
  }

  /** `CreateIntent`: a blank file name is a bad request, checked before the caller's id. */
  function CreateIntent(req: CreateIntentRequest, user: Principal): (a: Action<CreateUploadIntentRequest>)
    ensures IsBlank(req.fileName) <==> a == BadRequest("FileName required.")
    ensures !IsBlank(req.fileName) ==>
              a == WithCaller(user, (id: Int32) =>
                     CreateUploadIntentRequest(req.fileName, ContentTypeOrDefault(req.contentType), req.sizeBytes, id, LINK_TTL))
  {
    if IsBlank(req.fileName) then BadRequest("FileName required.")
    else
      var contentType := ContentTypeOrDefault(req.contentType);
      WithCaller(user, (id: Int32) => CreateUploadIntentRequest(req.fileName, contentType, req.sizeBytes, id, LINK_TTL))
  }

  /** The intent reply: `UploadUrl` is the presigned URL and `FileId` the object key. */
  function IntentReply(result: CreateUploadIntentResponse): (r: CreateIntentResponse)
    ensures r.uploadUrl == result.url && r.fileId == result.objectKey
  {
    CreateIntentResponse(result.url, result.objectKey)
  }

  /** Every intent the controller passes on names the file, carries a non-blank content
      type, the caller's id and a ten-minute lifetime of 600 seconds. */
  lemma CreateIntentForwards(req: CreateIntentRequest, user: Principal)
    requires CreateIntent(req, user).Call?
    ensures var r := CreateIntent(req, user).request;
            r.fileName == req.fileName && !IsBlank(r.contentType) && r.sizeBytes == req.sizeBytes
            && Some(r.userId) == TryParseInt32(UserIdClaim(user.value).value)
            && WholeSeconds(r.ttl) == 600
  {
  }

  /** `Finalize`: both the object key and the original name must be non-blank; the route's
      file id plays no part. */
  function Finalize(fileId: string, req: FinalizeRequest, user: Principal): (a: Action<CreateMetadataRequest>)
    ensures IsBlank(req.objectKey) || IsBlank(req.originalName) <==> a == BadRequest("ObjectKey and OriginalName required.")
    ensures !IsBlank(req.objectKey) && !IsBlank(req.originalName) ==>
              a == WithCaller(user, (id: Int32) =>
                     CreateMetadataRequest(req.objectKey, req.originalName, req.contentType, req.sizeBytes, id))
  {
    if IsBlank(req.objectKey) || IsBlank(req.originalName) then BadRequest("ObjectKey and OriginalName required.")
    else WithCaller(user, (id: Int32) => CreateMetadataRequest(req.objectKey, req.originalName, req.contentType, req.sizeBytes, id))
  }

  lemma FinalizeIgnoresRoute(fileId: string, otherId: string, req: FinalizeRequest, user: Principal)
    ensures Finalize(fileId, req, user) == Finalize(otherId, req, user)
  {
  }

  /** `GetDownloadUrl`: the URL is requested for ten minutes; no caller id is needed. */
  function GetDownloadUrl(id: int): (r: GetDownloadUrlRequest)
    ensures r.fileId == id && WholeSeconds(r.ttl) == 600
  {
    GetDownloadUrlRequest(id, LINK_TTL)
  }

  /** `Rename`: a blank new name is a bad request, checked before the caller's id. */
  function Rename(id: int, req: RenameRequest, user: Principal): (a: Action<RenameFileRequest>)
    ensures IsBlank(req.newName) <==> a == BadRequest("NewName required.")
    ensures !IsBlank(req.newName) ==> a == WithCaller(user, (userId: Int32) => RenameFileRequest(id, userId, req.newName))
  {
    if IsBlank(req.newName) then BadRequest("NewName required.")
    else WithCaller(user, (userId: Int32) => RenameFileRequest(id, userId, req.newName))
  }

  /** `Delete`: no validation; the request names the caller. */
  function Delete(id: int, user: Principal): (a: Action<DeleteFileRequest>)
    ensures !a.BadRequest?
    ensures a.Call? <==> GetCurrentUserId(user).Ok?
    ensures a.Call? ==> a.request == DeleteFileRequest(id, GetCurrentUserId(user).value)
  {
    WithCaller(user, (userId: Int32) => DeleteFileRequest(id, userId))
  }
}

/** The earlier files controller (server/src/Cloudy.API/Controllers/FIlesController.cs). Its
    `GetCurrentUserId` is the same code as the base controller's and is modelled by
    `Controllers.GetCurrentUserId`. It calls a file service interface that takes no size and
    no caller for an intent, and no caller for rename and delete; those calls are recorded
    as the values passed. */
module LegacyControllers {
  import opened Wrappers
  import opened Exceptions
  import opened Text
  import opened ValueObjects
  import opened Controllers

  datatype IntentCall = IntentCall(fileName: string, contentType: string, ttl: TimeSpan)
  datatype FinalizeCall = FinalizeCall(objectKey: string, originalName: string, contentType: string, sizeBytes: Int64, userId: int)
  datatype RenameCall = RenameCall(id: int, newName: string)

  /** `CreateIntent`: a blank file name is a bad request; otherwise the intent is asked for
      with the defaulted content type and ten minutes, and no caller id is read. */
  function CreateIntent(req: CreateIntentRequest, user: Principal): (a: Action<IntentCall>)
    ensures IsBlank(req.fileName) <==> a == BadRequest("FileName required.")
    ensures !IsBlank(req.fileName) ==> a == Call(IntentCall(req.fileName, ContentTypeOrDefault(req.contentType), LINK_TTL))
  {
    if IsBlank(req.fileName) then BadRequest("FileName required.")
    else Call(IntentCall(req.fileName, ContentTypeOrDefault(req.contentType), LINK_TTL))
  }

  /** Unlike the current controller, an authenticated caller whose claims carry no usable
      user id (no "sub" or name-identifier claim, an empty one, or one that is not an `int`)
      still gets an intent. */
  lemma IntentNeedsNoCaller(req: CreateIntentRequest, claims: seq<Claim>)
    requires !IsBlank(req.fileName) && GetCurrentUserId(Some(claims)).Err?
    ensures CreateIntent(req, Some(claims)).Call?
    ensures Controllers.CreateIntent(req, Some(claims)) == Throw(UnauthorizedAccessException(NOT_AUTHENTICATED))
  {
  }

  /** `Finalize`: both fields required, then the caller's id. */
  function Finalize(fileId: string, req: FinalizeRequest, user: Principal): (a: Action<FinalizeCall>)
    ensures IsBlank(req.objectKey) || IsBlank(req.originalName) <==> a == BadRequest("ObjectKey and OriginalName required.")
    ensures !IsBlank(req.objectKey) && !IsBlank(req.originalName) ==>
              a == WithCaller(user, (id: Int32) => FinalizeCall(req.objectKey, req.originalName, req.contentType, req.sizeBytes, id))
  {
    if IsBlank(req.objectKey) || IsBlank(req.originalName) then BadRequest("ObjectKey and OriginalName required.")
    else WithCaller(user, (id: Int32) => FinalizeCall(req.objectKey, req.originalName, req.contentType, req.sizeBytes, id))
  }

  /** `Rename`: a blank new name is a bad request. */
  function Rename(id: int, req: RenameRequest): (a: Action<RenameCall>)
    ensures IsBlank(req.newName) <==> a == BadRequest("NewName required.")
    ensures !IsBlank(req.newName) ==> a == Call(RenameCall(id, req.newName))
  {
    if IsBlank(req.newName) then BadRequest("NewName required.") else Call(RenameCall(id, req.newName))
  }
}
